// The packed bitfield as an object, and its loops over bytes and bits.
module Bitfields {
  import opened Common
  import opened BitfieldSpec

  // The "for curByte != 0" loop of FromBytes and NumDiff.
  method CountOnes(b: bv8) returns (n: nat)
    ensures n == Ones(b)
  {
    OnesOfConstants();
    n := 0;
    var cur := b;
    while cur != 0
      invariant n + Ones(cur) == Ones(b)
      decreases Ones(cur)
    {
      ClearLowest(cur);
      cur := cur & (cur - 1);
      n := n + 1;
    }
  }

  class Bitfield {
    const Bytes: array<bv8>
    const len: nat
    var Complete: bool
    var Empty: bool
    var NumSet: nat

    // NumSet is the number of bits on. There may be fewer bits than indices.
    ghost predicate Valid()
      reads this, Bytes
    {
      NumSet == |Members()|
    }

    ghost function Members(): set<nat>
      reads Bytes
    {
      On(Bytes[..])
    }

    // However many bytes there are for the length.
    constructor FromBytes(bytes: seq<bv8>, length: nat)
      ensures Valid() && fresh(Bytes) && Bytes[..] == bytes && len == length
      ensures Empty == (Members() == {}) && Complete == (NumSet == len)
    {
      Bytes := new bv8[|bytes|](i requires 0 <= i < |bytes| => bytes[i]);
      len := length;
      new;
      var count: nat := 0;
      OnesOfConstants();
      for i := 0 to |bytes|
        invariant Bytes[..] == bytes
        invariant count == Count(bytes[..i])
      {
        assert bytes[..i + 1][..i] == bytes[..i];
        if bytes[i] == 0xFF {
          count := count + 8;
        } else {
          var ones := CountOnes(bytes[i]);
          count := count + ones;
        }
      }
      assert bytes[..|bytes|] == bytes;
      CountIsSize(bytes);
      NumSet := count;
      Empty := count == 0;
      Complete := count == len;
    }

    constructor (length: nat)
      ensures Valid() && fresh(Bytes) && len == length
      ensures Bytes.Length == (length + 7) / 8
      ensures Members() == {} && !Complete && Empty
    {
      Bytes := new bv8[(length + 7) / 8](_ => 0);
      len := length;
      Complete := false;
      Empty := true;
      NumSet := 0;
      new;
      assert Members() == {} by {
        forall k: nat | k < 8 * Bytes.Length
          ensures !Bit(Bytes[..], k)
        {
          assert Bytes[..][k / 8] == 0;
        }
      }
    }

    // Refuses only index > len: index == len is accepted, and is a spare bit when the
    // last byte has one. Without one the access is out of range.
    method SetBit(index: nat) returns (r: Checked<bool>)
      requires Valid()
      modifies this, Bytes
      ensures Valid() && Empty == old(Empty)
      ensures r.IndexPanic? <==> 8 * Bytes.Length <= index <= len
      ensures Bytes.Length == (len + 7) / 8 ==> (r.IndexPanic? <==> index == len && len % 8 == 0)
      ensures r.Returns? ==> r.value == (index <= len)
      ensures Members() == if r == Returns(true) then old(Members()) + {index} else old(Members())
      ensures Complete == if r == Returns(true) then NumSet == len else old(Complete)
    {
      if index > len {
        return Returns(false);
      }
      hide On, Mask, BitOn, WithBit;
      ghost var was := Bytes[..];
      var byteIndex, bitIndex := index / 8, index % 8;
      if byteIndex >= Bytes.Length {
        return IndexPanic;
      }
      OnOfSet(was, index);
      BitIn(was, index);
      if !BitOn(Bytes[byteIndex], bitIndex) {
        Bytes[byteIndex] := WithBit(Bytes[byteIndex], bitIndex);
        NumSet := NumSet + 1;
        assert Bytes[..] == was[byteIndex := WithBit(was[byteIndex], bitIndex)];
      } else {
        AlreadyOn(was[byteIndex], bitIndex);
        assert was == was[byteIndex := WithBit(was[byteIndex], bitIndex)];
      }
      Complete := NumSet == len;
      return Returns(true);
    }

    function GetBit(index: nat): (r: Checked<bool>)
      reads this, Bytes
      ensures r == if index < 8 * Bytes.Length then Returns(index in Members()) else IndexPanic
    {
      BitIn(Bytes[..], index);
      if index / 8 >= Bytes.Length then IndexPanic
      else
        assert Bytes[..][index / 8] == Bytes[index / 8];
        Returns(Bytes[index / 8] & Mask(index % 8) != 0)
    }

    method NumDiff(other: Bitfield) returns (r: Checked<nat>)
      ensures r == if Bytes.Length <= other.Bytes.Length then Returns(|Members() - other.Members()|) else IndexPanic
    {
      var count: nat := 0;
      ghost var diffs: seq<bv8> := [];
      OnesOfConstants();
      for i := 0 to Bytes.Length
        invariant i <= other.Bytes.Length
        invariant |diffs| == i && forall j :: 0 <= j < i ==> diffs[j] == Bytes[j] & !other.Bytes[j]
        invariant count == Count(diffs)
      {
        if i >= other.Bytes.Length {
          return IndexPanic;
        }
        var diff := Bytes[i] & !other.Bytes[i];
        var ones := CountOnes(diff);
        count := count + ones;
        assert (diffs + [diff])[..i] == diffs;
        diffs := diffs + [diff];
      }
      CountIsSize(diffs);
      OnOfDiff(diffs, Bytes[..], other.Bytes[..]);
      return Returns(count);
    }

    method And(other: Bitfield) returns (r: Checked<Bitfield>)
      ensures r.IndexPanic? <==> Min(Bytes.Length, other.Bytes.Length) < (Min(len, other.len) + 7) / 8
      ensures r.Returns? ==>
                var both := r.value;
                && fresh(both) && both.Valid() && both.len == Min(len, other.len)
                && IsAnd(both.Bytes[..], Bytes[..], other.Bytes[..])
                && both.Bytes.Length == (both.len + 7) / 8
                && (Bytes.Length == other.Bytes.Length == both.Bytes.Length ==>
                      both.Members() == Members() * other.Members())
    {
      hide On, BothOn;
      var length := Min(len, other.len);
      var bytes: seq<bv8> := [];
      for i := 0 to (length + 7) / 8
        invariant |bytes| == i <= Min(Bytes.Length, other.Bytes.Length)
        invariant forall j :: 0 <= j < i ==> bytes[j] == BothOn(Bytes[j], other.Bytes[j])
      {
        if i >= Bytes.Length || i >= other.Bytes.Length {
          return IndexPanic;
        }
        bytes := bytes + [BothOn(Bytes[i], other.Bytes[i])];
      }
      var both := new Bitfield.FromBytes(bytes, length);
      if Bytes.Length == other.Bytes.Length == |bytes| {
        OnOfAnd(bytes, Bytes[..], other.Bytes[..]);
      }
      return Returns(both);
    }

    // Bytes of the other beyond ours are not looked at. With fewer the access is out of
    // range, unless they differ before.
    method Equals(other: Bitfield) returns (r: Checked<bool>)
      ensures r.IndexPanic? <==>
                len == other.len && other.Bytes.Length < Bytes.Length && Bytes[..other.Bytes.Length] == other.Bytes[..]
      ensures r == Returns(true) <==>
                len == other.len && Bytes.Length <= other.Bytes.Length && Bytes[..] == other.Bytes[..Bytes.Length]
    {
      if len != other.len {
        return Returns(false);
      }
      for i := 0 to Bytes.Length
        invariant i <= other.Bytes.Length
        invariant forall j :: 0 <= j < i ==> Bytes[j] == other.Bytes[j]
      {
        if i >= other.Bytes.Length {
          return IndexPanic;
        }
        if Bytes[i] != other.Bytes[i] {
          return Returns(false);
        }
      }
      return Returns(true);
    }

    // The same for HasAll: with fewer bytes it panics exactly when it would be true.
    method HasAll(other: Bitfield) returns (r: Checked<bool>)
      ensures r.IndexPanic? <==>
                len == other.len && other.Bytes.Length < Bytes.Length && other.Members() <= Members()
      ensures r.Returns? ==>
                (r.value <==>
                  len == other.len && forall k: nat :: k < 8 * Bytes.Length && k in other.Members() ==> k in Members())
      ensures Bytes.Length == other.Bytes.Length ==> r == Returns(len == other.len && other.Members() <= Members())
    {
      ghost var a, b := Bytes[..], other.Bytes[..];
      ghost var n := Min(|a|, |b|);
      CommonPart(a, b);
      hide On, BitOn, ByteCovers;
      if len != other.len {
        return Returns(false);
      }
      for i := 0 to Bytes.Length
        invariant i <= |b| && forall j :: 0 <= j < i ==> ByteCovers(a[j], b[j])
      {
        if i >= other.Bytes.Length {
          return IndexPanic;
        }
        if Bytes[i] != other.Bytes[i] {
          var covers := Covers(Bytes[i], other.Bytes[i]);
          if !covers {
            assert !ByteCovers(a[i], b[i]) && i < n && Members() == On(a) && other.Members() == On(b);
            return Returns(false);
          }
        } else {
          CoversItself(Bytes[i]);
        }
      }
      return Returns(true);
    }
  }

  // The bytes that both have cover each other exactly when the indices among them do.
  lemma {:induction false} CommonPart(a: seq<bv8>, b: seq<bv8>)
    ensures var n := Min(|a|, |b|);
            (forall i :: 0 <= i < n ==> ByteCovers(a[i], b[i]))
            <==> forall k: nat :: k < 8 * |a| && k in On(b) ==> k in On(a)
    ensures |b| <= |a| ==> ((forall k: nat :: k < 8 * |a| && k in On(b) ==> k in On(a)) <==> On(b) <= On(a))
  {
    var n := Min(|a|, |b|);
    CoversIsSubset(a[..n], b);
    forall k: nat
      ensures k < 8 * n ==> (k in On(a[..n]) <==> k in On(a))
    {
      BitIn(a[..n], k);
      BitIn(a, k);
    }
    forall k: nat
      ensures k in On(b) ==> k < 8 * |b|
    {
      BitIn(b, k);
    }
    hide On, ByteCovers;
  }

  lemma {:induction false} CoversItself(b: bv8)
    ensures ByteCovers(b, b)
  {
  }

  // The loop over the bits of one byte, from the lowest up.
  method Covers(b: bv8, c: bv8) returns (covers: bool)
    ensures covers == ByteCovers(b, c)
  {
    for j := 0 to 8
      invariant forall m :: 8 - j <= m < 8 && BitOn(c, m) ==> BitOn(b, m)
    {
      if BitOn(c, 7 - j) && !BitOn(b, 7 - j) {
        return false;
      }
    }
    return true;
  }

  // What NumDiff, And and HasAll say of two bitfields of one length fits together: what
  // the first has beyond the second and what both have make up the first, and the first
  // has all of the second exactly when the second has nothing beyond it.
  method Compare(a: Bitfield, b: Bitfield) returns (beyond: nat, missing: nat, both: Bitfield, all: bool)
    requires a.Valid() && b.Valid() && a.len == b.len
    requires a.Bytes.Length == b.Bytes.Length == (a.len + 7) / 8
    ensures beyond + both.NumSet == a.NumSet && missing + both.NumSet == b.NumSet
    ensures all <==> missing == 0
  {
    var diff := a.NumDiff(b);
    var undone := b.NumDiff(a);
    var shared := a.And(b);
    var has := a.HasAll(b);
    beyond, missing, both, all := diff.value, undone.value, shared.value, has.value;
    DifferenceAndIntersection(a.Members(), b.Members());
    DifferenceAndIntersection(b.Members(), a.Members());
    assert a.Members() * b.Members() == b.Members() * a.Members();
  }
}
