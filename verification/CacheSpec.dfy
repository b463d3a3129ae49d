// The piece cache: what a least-recently-used cache keeps, in terms of the
// history of its uses.
module CacheSpec {
  import opened Common

  datatype Entry = Entry(key: nat, val: bytes)

  // Most recently used entry first.
  type Cache = seq<Entry>

  ghost predicate DistinctKeys(c: Cache) {
    forall i, j :: 0 <= i < j < |c| ==> c[i].key != c[j].key
  }

  predicate Has(c: Cache, k: nat) {
    exists i :: 0 <= i < |c| && c[i].key == k
  }

  function Index(c: Cache, k: nat): (i: nat)
    requires Has(c, k)
    ensures i < |c| && c[i].key == k
  {
    if c[0].key == k then 0 else 1 + Index(c[1..], k)
  }

  function Lookup(c: Cache, k: nat): bytes
    requires Has(c, k)
  {
    c[Index(c, k)].val
  }

  function Put(c: Cache, capacity: nat, k: nat, val: bytes): Cache
    requires capacity >= 1
  {
    if Has(c, k) then [Entry(k, val)] + Without(c, Index(c, k))
    else if |c| == capacity then [Entry(k, val)] + c[..|c| - 1]
    else [Entry(k, val)] + c
  }

  // The cache after a lookup: a hit moves the entry to the front.
  function Touch(c: Cache, k: nat): Cache {
    if Has(c, k) then [c[Index(c, k)]] + Without(c, Index(c, k)) else c
  }

  // ----- histories -----

  datatype CacheOp = PutOp(key: nat, val: bytes) | GetOp(key: nat)

  function Apply(c: Cache, capacity: nat, op: CacheOp): Cache
    requires capacity >= 1
  {
    match op
    case PutOp(k, val) => Put(c, capacity, k, val)
    case GetOp(k) => Touch(c, k)
  }

  function RunCache(capacity: nat, ops: seq<CacheOp>): Cache
    requires capacity >= 1
  {
    if ops == [] then [] else Apply(RunCache(capacity, ops[..|ops| - 1]), capacity, ops[|ops| - 1])
  }

  // The keys used, in order: every Put, and every Get that hits.
  function Uses(capacity: nat, ops: seq<CacheOp>): seq<nat>
    requires capacity >= 1
  {
    if ops == [] then []
    else
      var before, op := ops[..|ops| - 1], ops[|ops| - 1];
      if op.GetOp? && !Has(RunCache(capacity, before), op.key) then Uses(capacity, before)
      else Uses(capacity, before) + [op.key]
  }

  function LastPut(ops: seq<CacheOp>, k: nat): Option<bytes> {
    if ops == [] then None
    else if ops[|ops| - 1].PutOp? && ops[|ops| - 1].key == k then Some(ops[|ops| - 1].val)
    else LastPut(ops[..|ops| - 1], k)
  }

  // The other keys used since the last use of k.
  function UsedSince(uses: seq<nat>, k: nat): set<nat> {
    if uses == [] || uses[|uses| - 1] == k then {}
    else UsedSince(uses[..|uses| - 1], k) + {uses[|uses| - 1]}
  }

  // The keys of the first j entries.
  ghost function KeysBefore(c: Cache, j: nat): set<nat>
    requires j <= |c|
  {
    if j == 0 then {} else KeysBefore(c, j - 1) + {c[j - 1].key}
  }

  lemma {:induction false} KeysBeforeAre(c: Cache, j: nat)
    requires j <= |c| && DistinctKeys(c)
    ensures |KeysBefore(c, j)| == j
    ensures forall m :: j <= m < |c| ==> c[m].key !in KeysBefore(c, j)
    ensures forall m :: 0 <= m < j ==> c[m].key in KeysBefore(c, j)
    ensures forall k :: k in KeysBefore(c, j) ==> Has(c, k)
  {
    if j > 0 {
      assert KeysBefore(c, j) == KeysBefore(c, j - 1) + {c[j - 1].key};
      KeyAt(c, j - 1);
      hide DistinctKeys, Has, KeysBefore;
      KeysBeforeAre(c, j - 1);
    }
  }

  lemma {:induction false} KeyAt(c: Cache, j: nat)
    requires j < |c| && DistinctKeys(c)
    ensures Has(c, c[j].key)
    ensures forall m :: 0 <= m < |c| && m != j ==> c[m].key != c[j].key
  {
  }

  // d is c with an entry for key k put in front and, when i is an index of c,
  // entry i taken out.
  ghost predicate Fronted(d: Cache, c: Cache, k: nat, i: nat) {
    && |d| >= 1 && d[0].key == k && |d| <= |c| + 1
    && (forall m :: 0 < m < |d| && m <= i ==> d[m] == c[m - 1])
    && (forall m :: i < m < |d| ==> m < |c| && d[m] == c[m])
    && (i < |c| && i < |d| - 1 ==> c[i].key == k)
  }

  lemma {:induction false} KeysBeforeFronted(d: Cache, c: Cache, k: nat, i: nat, j: nat)
    requires Fronted(d, c, k, i) && 0 < j < |d|
    ensures KeysBefore(d, j) == (if j <= i then KeysBefore(c, j - 1) else KeysBefore(c, j)) + {k}
    decreases j
  {
    if j == 1 {
    } else {
      KeysBeforeFronted(d, c, k, i, j - 1);
    }
  }

  // Every entry's rank is the number of keys used since.
  ghost predicate Ranked(c: Cache, uses: seq<nat>) {
    && DistinctKeys(c)
    && forall i :: 0 <= i < |c| ==> c[i].key in uses && UsedSince(uses, c[i].key) == KeysBefore(c, i)
  }

  // Every entry has the value last put.
  ghost predicate Current(c: Cache, ops: seq<CacheOp>) {
    forall e :: e in c ==> LastPut(ops, e.key) == Some(e.val)
  }

  // A key that was used and is not cached was pushed out by enough others.
  ghost predicate PushedOut(c: Cache, capacity: nat, uses: seq<nat>) {
    forall k :: k in uses && !Has(c, k) ==> |UsedSince(uses, k)| >= capacity
  }

  lemma UsedSinceNext(uses: seq<nat>, k: nat, x: nat)
    ensures UsedSince(uses + [k], x) == if x == k then {} else UsedSince(uses, x) + {k}
    ensures x != k ==> |UsedSince(uses + [k], x)| >= |UsedSince(uses, x)|
  {
    assert (uses + [k])[..|uses|] == uses;
    var a, b := UsedSince(uses, x), UsedSince(uses + [k], x);
    if x != k {
      assert |b| == |a| + |b - a|;
    }
  }

  lemma RankedStep(d: Cache, c: Cache, k: nat, i: nat, uses: seq<nat>)
    requires Ranked(c, uses) && Fronted(d, c, k, i) && DistinctKeys(d)
    ensures Ranked(d, uses + [k])
  {
    forall j | 0 <= j < |d|
      ensures d[j].key in uses + [k] && UsedSince(uses + [k], d[j].key) == KeysBefore(d, j)
    {
      UsedSinceNext(uses, k, d[j].key);
      if j > 0 {
        assert d[j].key != d[0].key;
        KeysBeforeFronted(d, c, k, i, j);
        if j <= i {
          assert d[j] == c[j - 1];
        } else {
          assert d[j] == c[j];
        }
      }
    }
  }

  lemma CurrentStep(d: Cache, c: Cache, k: nat, ops: seq<CacheOp>, op: CacheOp)
    requires Current(c, ops) && op.key == k && DistinctKeys(d)
    requires |d| >= 1 && d[0].key == k && forall e :: e in d[1..] ==> e in c
    requires if op.PutOp? then d[0].val == op.val else d[0] in c
    ensures Current(d, ops + [op])
  {
    assert (ops + [op])[..|ops|] == ops;
    forall e | e in d
      ensures LastPut(ops + [op], e.key) == Some(e.val)
    {
      var j :| 0 <= j < |d| && d[j] == e;
      if j > 0 {
        assert d[j] == d[1..][j - 1];
        assert d[0].key != d[j].key;
      }
    }
  }

  lemma MovedIsFronted(c: Cache, i: nat, val: bytes)
    requires i < |c| && DistinctKeys(c)
    ensures var d := [Entry(c[i].key, val)] + Without(c, i);
            && |d| == |c| && Fronted(d, c, c[i].key, i) && DistinctKeys(d)
            && forall x :: Has(c, x) ==> Has(d, x)
  {
    var d := [Entry(c[i].key, val)] + Without(c, i);
    assert forall m :: 0 < m <= i ==> d[m] == c[m - 1];
    assert forall m :: i < m < |c| ==> d[m] == c[m];
    forall x | Has(c, x)
      ensures Has(d, x)
    {
      var m := Index(c, x);
      assert d[if m == i then 0 else if m < i then m + 1 else m].key == x;
    }
  }

  lemma MoveToFrontStep(c: Cache, i: nat, capacity: nat, uses: seq<nat>, val: bytes)
    requires i < |c| && Ranked(c, uses) && PushedOut(c, capacity, uses)
    ensures var d := [Entry(c[i].key, val)] + Without(c, i);
            && Ranked(d, uses + [c[i].key]) && PushedOut(d, capacity, uses + [c[i].key])
            && Fronted(d, c, c[i].key, i)
  {
    var k := c[i].key;
    var d := [Entry(k, val)] + Without(c, i);
    MovedIsFronted(c, i, val);
    RankedStep(d, c, k, i, uses);
    forall x | x in uses + [k] && !Has(d, x)
      ensures |UsedSince(uses + [k], x)| >= capacity
    {
      assert d[0].key == k;
      UsedSinceNext(uses, k, x);
    }
  }

  lemma InsertedIsFronted(c: Cache, kept: Cache, k: nat, val: bytes)
    requires DistinctKeys(c) && !Has(c, k)
    requires kept == c || (|c| > 0 && kept == c[..|c| - 1])
    ensures var d := [Entry(k, val)] + kept;
            && Fronted(d, c, k, |c|) && DistinctKeys(d)
            && forall x :: Has(c, x) ==> Has(d, x) || (|kept| < |c| && x == c[|c| - 1].key)
  {
    var d := [Entry(k, val)] + kept;
    assert forall m :: 0 < m < |d| ==> d[m] == c[m - 1];
    forall x | Has(c, x)
      ensures Has(d, x) || (|kept| < |c| && x == c[|c| - 1].key)
    {
      var m := Index(c, x);
      if m < |kept| {
        assert d[m + 1].key == x;
      }
    }
  }

  lemma InsertStep(c: Cache, capacity: nat, uses: seq<nat>, k: nat, val: bytes)
    requires |c| <= capacity && capacity >= 1
    requires Ranked(c, uses) && PushedOut(c, capacity, uses) && !Has(c, k)
    ensures var d := Put(c, capacity, k, val);
            Ranked(d, uses + [k]) && PushedOut(d, capacity, uses + [k])
  {
    var kept := if |c| == capacity then c[..|c| - 1] else c;
    var d := [Entry(k, val)] + kept;
    InsertedIsFronted(c, kept, k, val);
    RankedStep(d, c, k, |c|, uses);
    forall x | x in uses + [k] && !Has(d, x)
      ensures |UsedSince(uses + [k], x)| >= capacity
    {
      assert d[0].key == k;
      UsedSinceNext(uses, k, x);
      if Has(c, x) {
        LastIsPushedOut(c, uses, k);
      }
    }
  }

  lemma LastIsPushedOut(c: Cache, uses: seq<nat>, k: nat)
    requires |c| > 0 && Ranked(c, uses) && !Has(c, k)
    ensures |UsedSince(uses + [k], c[|c| - 1].key)| == |c|
  {
    var n := |c| - 1;
    KeysBeforeAre(c, n);
    UsedSinceNext(uses, k, c[n].key);
    assert UsedSince(uses + [k], c[n].key) == KeysBefore(c, n) + {k};
  }

  ghost predicate Explains(c: Cache, capacity: nat, uses: seq<nat>, ops: seq<CacheOp>) {
    |c| <= capacity && Ranked(c, uses) && Current(c, ops) && PushedOut(c, capacity, uses)
  }

  lemma {:induction false} HistoryExplains(capacity: nat, ops: seq<CacheOp>)
    requires capacity >= 1
    ensures Explains(RunCache(capacity, ops), capacity, Uses(capacity, ops), ops)
  {
    if ops == [] {
    } else {
      var before, op := ops[..|ops| - 1], ops[|ops| - 1];
      HistoryExplains(capacity, before);
      assert ops == before + [op];
      var c, uses := RunCache(capacity, before), Uses(capacity, before);
      var d := RunCache(capacity, ops);
      if Has(c, op.key) {
        var i := Index(c, op.key);
        MoveToFrontStep(c, i, capacity, uses, d[0].val);
        assert d == [Entry(c[i].key, d[0].val)] + Without(c, i);
        CurrentStep(d, c, op.key, before, op);
      } else if op.PutOp? {
        InsertStep(c, capacity, uses, op.key, op.val);
        CurrentStep(d, c, op.key, before, op);
      } else {
        assert forall k :: LastPut(ops, k) == LastPut(before, k);
      }
    }
  }

  // A key is cached exactly when fewer than capacity other keys were used since
  // its last use; its rank is that number, its value the last one put.
  lemma CacheHoldsMostRecentlyUsed(capacity: nat, ops: seq<CacheOp>)
    requires capacity >= 1
    ensures var c, uses := RunCache(capacity, ops), Uses(capacity, ops);
            && |c| <= capacity && DistinctKeys(c)
            && (forall k :: Has(c, k) <==> k in uses && |UsedSince(uses, k)| < capacity)
            && (forall i :: 0 <= i < |c| ==> |UsedSince(uses, c[i].key)| == i)
            && (forall k :: Has(c, k) ==> LastPut(ops, k) == Some(Lookup(c, k)))
  {
    HistoryExplains(capacity, ops);
    var c, uses := RunCache(capacity, ops), Uses(capacity, ops);
    forall i | 0 <= i < |c|
      ensures |UsedSince(uses, c[i].key)| == i
    {
      KeysBeforeAre(c, i);
    }
    forall k | Has(c, k)
      ensures k in uses && |UsedSince(uses, k)| < capacity && LastPut(ops, k) == Some(Lookup(c, k))
    {
      assert c[Index(c, k)].key == k;
    }
  }

  lemma PutThenHas(c: Cache, capacity: nat, k: nat, val: bytes)
    requires capacity >= 1
    ensures Has(Put(c, capacity, k, val), k) && Lookup(Put(c, capacity, k, val), k) == val
  {
    assert Put(c, capacity, k, val)[0] == Entry(k, val);
  }

  // Neither operation invents an entry.
  lemma PutEntries(c: Cache, capacity: nat, k: nat, val: bytes)
    requires capacity >= 1
    ensures forall e :: e in Put(c, capacity, k, val) ==> e == Entry(k, val) || e in c
  {
  }

  lemma TouchEntries(c: Cache, k: nat)
    ensures forall e :: e in Touch(c, k) ==> e in c
  {
  }
}
