// A packed bitfield: bit k is bit 7 - k % 8 of byte k / 8. It stands for the set
// of indices whose bit is on.
module BitfieldSpec {
  import opened Common

  // 1 << (7 - j)
  function Mask(j: nat): bv8
    requires j < 8
  {
    match j
    case 0 => 0x80
    case 1 => 0x40
    case 2 => 0x20
    case 3 => 0x10
    case 4 => 0x08
    case 5 => 0x04
    case 6 => 0x02
    case _ => 0x01
  }

  predicate BitOn(b: bv8, j: nat)
    requires j < 8
  {
    b & Mask(j) != 0
  }

  function WithBit(b: bv8, j: nat): bv8
    requires j < 8
  {
    b | Mask(j)
  }

  // The high bit comes first.
  lemma HighBitFirst(b: bv8, j: nat)
    requires j < 7
    ensures BitOn(b, 0) <==> b >= 128
    ensures BitOn(b, j + 1) <==> BitOn(b << 1, j)
  {
  }

  predicate Bit(s: seq<bv8>, k: nat)
    requires k < 8 * |s|
  {
    BitOn(s[k / 8], k % 8)
  }

  // The indices whose bit is on, among the first n.
  function OnBelow(s: seq<bv8>, n: nat): set<nat>
    requires n <= 8 * |s|
  {
    set k | 0 <= k < n && Bit(s, k)
  }

  function On(s: seq<bv8>): set<nat> {
    OnBelow(s, 8 * |s|)
  }

  // The number of bits on in the first j bits of a byte.
  function OnesBelow(b: bv8, j: nat): nat
    requires j <= 8
  {
    if j == 0 then 0 else OnesBelow(b, j - 1) + (if BitOn(b, j - 1) then 1 else 0)
  }

  function Ones(b: bv8): nat {
    OnesBelow(b, 8)
  }

  function Count(s: seq<bv8>): nat {
    if s == [] then 0 else Count(s[..|s| - 1]) + Ones(s[|s| - 1])
  }

  lemma OnesUnfolded(b: bv8)
    ensures Ones(b) == (if BitOn(b, 0) then 1 else 0) + (if BitOn(b, 1) then 1 else 0)
                     + (if BitOn(b, 2) then 1 else 0) + (if BitOn(b, 3) then 1 else 0)
                     + (if BitOn(b, 4) then 1 else 0) + (if BitOn(b, 5) then 1 else 0)
                     + (if BitOn(b, 6) then 1 else 0) + (if BitOn(b, 7) then 1 else 0)
  {
    hide BitOn;
    assert OnesBelow(b, 7) == OnesBelow(b, 6) + (if BitOn(b, 6) then 1 else 0);
    assert OnesBelow(b, 5) == OnesBelow(b, 4) + (if BitOn(b, 4) then 1 else 0);
    assert OnesBelow(b, 3) == OnesBelow(b, 2) + (if BitOn(b, 2) then 1 else 0);
    assert OnesBelow(b, 1) == OnesBelow(b, 0) + (if BitOn(b, 0) then 1 else 0);
  }

  // Clearing the lowest bit that is on takes exactly one away.
  lemma ClearLowest(b: bv8)
    requires b != 0
    ensures Ones(b) == Ones(b & (b - 1)) + 1
  {
    OnesUnfolded(b);
    OnesUnfolded(b & (b - 1));
  }

  lemma OnesOfConstants()
    ensures Ones(0) == 0 && Ones(0xFF) == 8
  {
    OnesUnfolded(0);
    OnesUnfolded(0xFF);
  }

  lemma {:induction false} OneMoreOn(s: seq<bv8>, i: nat, j: nat)
    requires i < |s| && j < 8
    ensures |OnBelow(s, 8 * i + j + 1)| == |OnBelow(s, 8 * i + j)| + if BitOn(s[i], j) then 1 else 0
  {
    var k := 8 * i + j;
    assert k / 8 == i && k % 8 == j;
    hide BitOn, OnBelow;
    OneMoreIndex(s, k);
  }

  lemma {:induction false} OneMoreIndex(s: seq<bv8>, k: nat)
    requires k < 8 * |s|
    ensures |OnBelow(s, k + 1)| == |OnBelow(s, k)| + if Bit(s, k) then 1 else 0
  {
    hide Bit;
    assert OnBelow(s, k + 1) == OnBelow(s, k) + if Bit(s, k) then {k} else {};
  }

  lemma {:induction false} CountUpTo(s: seq<bv8>, i: nat, j: nat)
    requires i < |s| && j <= 8
    ensures |OnBelow(s, 8 * i + j)| == Count(s[..i]) + OnesBelow(s[i], j)
    decreases i, j
  {
    if j > 0 {
      CountUpTo(s, i, j - 1);
      OneMoreOn(s, i, j - 1);
    } else if i > 0 {
      CountUpTo(s, i - 1, 8);
      assert s[..i][..i - 1] == s[..i - 1];
      hide OnBelow, OnesBelow;
    } else {
      assert OnBelow(s, 0) == {};
    }
  }

  // The byte-wise count is the size of the set.
  lemma CountIsSize(s: seq<bv8>)
    ensures |On(s)| == Count(s)
  {
    if s == [] {
      assert On(s) == {};
    } else {
      CountUpTo(s, |s| - 1, 8);
    }
  }

  lemma BitIn(s: seq<bv8>, k: nat)
    ensures k in On(s) <==> k < 8 * |s| && Bit(s, k)
  {
  }

  // Every bit of the second byte is on in the first.
  ghost predicate ByteCovers(b: bv8, c: bv8) {
    forall j :: 0 <= j < 8 && BitOn(c, j) ==> BitOn(b, j)
  }

  ghost predicate AllCovered(a: seq<bv8>, b: seq<bv8>)
    requires |a| <= |b|
  {
    forall i :: 0 <= i < |a| ==> ByteCovers(a[i], b[i])
  }

  // Byte by byte, a has every index of b, up to the end of a.
  lemma {:induction false} CoversIsSubset(a: seq<bv8>, b: seq<bv8>)
    requires |a| <= |b|
    ensures AllCovered(a, b) <==> forall k: nat :: k < 8 * |a| && k in On(b) ==> k in On(a)
  {
    hide On, BitOn;
    forall k: nat
      ensures k in On(a) <==> k < 8 * |a| && BitOn(a[k / 8], k % 8)
      ensures k in On(b) <==> k < 8 * |b| && BitOn(b[k / 8], k % 8)
    {
      BitIn(a, k);
      BitIn(b, k);
    }
    if forall k: nat :: k < 8 * |a| && k in On(b) ==> k in On(a) {
      forall i, j | 0 <= i < |a| && 0 <= j < 8 && BitOn(b[i], j)
        ensures BitOn(a[i], j)
      {
        var k := 8 * i + j;
        assert k / 8 == i && k % 8 == j && k in On(b);
      }
    }
  }

  lemma MaskBits(b: bv8, c: bv8, j: nat)
    requires j < 8
    ensures BitOn(b & c, j) == (BitOn(b, j) && BitOn(c, j))
    ensures BitOn(b & !c, j) == (BitOn(b, j) && !BitOn(c, j))
  {
  }

  lemma SetMask(b: bv8, i: nat, j: nat)
    requires i < 8 && j < 8
    ensures BitOn(WithBit(b, i), j) == (BitOn(b, j) || i == j)
  {
  }

  lemma AlreadyOn(b: bv8, j: nat)
    requires j < 8 && BitOn(b, j)
    ensures WithBit(b, j) == b
  {
  }

  lemma OnOfSet(s: seq<bv8>, index: nat)
    requires index / 8 < |s|
    ensures On(s[index / 8 := WithBit(s[index / 8], index % 8)]) == On(s) + {index}
    ensures |On(s) + {index}| == |On(s)| + if Bit(s, index) then 0 else 1
  {
    var t := s[index / 8 := WithBit(s[index / 8], index % 8)];
    forall k: nat | k < 8 * |s|
      ensures Bit(t, k) == (Bit(s, k) || k == index)
    {
      if k / 8 == index / 8 {
        SetMask(s[k / 8], index % 8, k % 8);
      }
    }
    hide Bit, WithBit, On;
    OneMoreBit(s, t, index);
  }

  lemma OneMoreBit(s: seq<bv8>, t: seq<bv8>, index: nat)
    requires |t| == |s| && index < 8 * |s|
    requires forall k: nat :: k < 8 * |s| ==> Bit(t, k) == (Bit(s, k) || k == index)
    ensures On(t) == On(s) + {index}
    ensures |On(s) + {index}| == |On(s)| + if Bit(s, index) then 0 else 1
  {
    hide Bit;
    if Bit(s, index) {
      assert On(s) + {index} == On(s);
    }
  }

  function BothOn(b: bv8, c: bv8): bv8 {
    b & c
  }

  // The bytes of A & B for the first |a| bytes of each.
  ghost predicate IsAnd(r: seq<bv8>, a: seq<bv8>, b: seq<bv8>) {
    && |r| <= |a| && |r| <= |b|
    && forall i :: 0 <= i < |r| ==> r[i] == BothOn(a[i], b[i])
  }

  lemma OnOfAnd(r: seq<bv8>, a: seq<bv8>, b: seq<bv8>)
    requires IsAnd(r, a, b) && |r| == |a| == |b|
    ensures On(r) == On(a) * On(b)
  {
    forall k: nat | k < 8 * |r|
      ensures Bit(r, k) == (Bit(a, k) && Bit(b, k))
    {
      MaskBits(a[k / 8], b[k / 8], k % 8);
    }
  }

  ghost predicate IsDiff(r: seq<bv8>, a: seq<bv8>, b: seq<bv8>) {
    && |r| == |a| <= |b|
    && forall i :: 0 <= i < |r| ==> r[i] == a[i] & !b[i]
  }

  lemma OnOfDiff(r: seq<bv8>, a: seq<bv8>, b: seq<bv8>)
    requires IsDiff(r, a, b)
    ensures On(r) == On(a) - On(b)
  {
    forall k: nat | k < 8 * |r|
      ensures Bit(r, k) == (Bit(a, k) && !Bit(b, k))
    {
      MaskBits(a[k / 8], b[k / 8], k % 8);
    }
  }

  // A spare bit, past the length of the bitfield, is never on.
  ghost predicate SpareBitsZero(s: seq<bv8>, len: nat) {
    forall k :: k in On(s) ==> k < len
  }

  // What A has beyond B and what both have make up A, and A has all of B exactly when B
  // has nothing beyond A.
  lemma DifferenceAndIntersection(a: set<nat>, b: set<nat>)
    ensures |a - b| + |a * b| == |a|
    ensures b <= a <==> |b - a| == 0
  {
    assert a == (a - b) + (a * b) && (a - b) !! (a * b);
    assert |b - a| == 0 <==> b - a == {};
    assert b == (b - a) + (a * b);
    assert b <= a ==> b - a == {};
  }

  // What a peer has that is still wanted is at most what is wanted.
  lemma RelevantAtMostWanted(remote: set<nat>, mine: set<nat>, len: nat)
    requires forall k :: k in remote + mine ==> k < len
    ensures |remote - mine| <= len - |mine|
    ensures |remote - mine| == 0 <==> remote <= mine
  {
    var all := Below(len);
    assert mine <= all;
    assert |all| == |mine| + |all - mine| by {
      assert all == mine + (all - mine);
    }
    Subset(remote - mine, all - mine);
    if remote <= mine {
      assert remote - mine == {};
    } else {
      assert remote - mine != {};
    }
  }

  lemma Subset(a: set<nat>, b: set<nat>)
    requires a <= b
    ensures |a| <= |b|
  {
    assert b == a + (b - a);
  }
}
