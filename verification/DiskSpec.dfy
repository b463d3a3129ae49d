// The files of a torrent seen as one virtual disk: their contents laid end to
// end. Writing a piece scatters it over the files it spans, reading gathers it.
module DiskSpec {
  import opened Common

  function Splice(d: bytes, at: nat, b: bytes): (r: bytes)
    requires at + |b| <= |d|
    ensures |r| == |d|
  {
    d[..at] + b + d[at + |b|..]
  }

  // What becomes of a write: the disk takes all of it, or an error stops it after
  // some of the bytes.
  datatype DiskFate = Kept | Cut(at: nat)

  function Reaching(fate: DiskFate, b: bytes): (r: bytes)
    ensures |r| <= |b|
  {
    if fate.Kept? then b else Take(b, fate.at)
  }

  // The virtual disk.
  ghost function Flat(files: seq<bytes>): bytes {
    if files == [] then [] else Flat(files[..|files| - 1]) + files[|files| - 1]
  }

  // Where file k starts on it.
  ghost function StartOf(files: seq<bytes>, k: nat): nat
    requires k <= |files|
  {
    |Flat(files[..k])|
  }

  // How many bytes of [offset, offset + length) lie before position.
  function Covered(position: int, offset: nat, length: nat): nat {
    if position <= offset then 0 else Min(position - offset, length)
  }

  lemma {:induction false} StartOfNext(files: seq<bytes>, k: nat)
    requires k < |files|
    ensures StartOf(files, k + 1) == StartOf(files, k) + |files[k]|
    ensures StartOf(files, k + 1) <= |Flat(files)|
    decreases |files| - k
  {
    assert files[..k + 1][..k] == files[..k];
    if k + 1 == |files| {
      assert files[..k + 1] == files;
    } else {
      StartOfNext(files, k + 1);
    }
  }

  lemma StartOfAll(files: seq<bytes>)
    ensures StartOf(files, 0) == 0 && StartOf(files, |files|) == |Flat(files)|
  {
    assert files[..|files|] == files;
  }

  lemma {:induction false} FlatUpdateOther(files: seq<bytes>, k: nat, b: bytes)
    requires k < |files|
    ensures StartOf(files, k) + |files[k]| <= |Flat(files)|
    ensures Flat(files[k := b])
         == Flat(files[..k]) + b + Flat(files)[StartOf(files, k) + |files[k]|..]
    ensures Flat(files) == Flat(files[..k]) + files[k] + Flat(files)[StartOf(files, k) + |files[k]|..]
  {
    var n := |files| - 1;
    var updated := files[k := b];
    if k == n {
      assert updated[..n] == files[..n];
    } else {
      FlatUpdateOther(files[..n], k, b);
      assert updated[..n] == files[..n][k := b];
      assert files[..n][..k] == files[..k];
      var at := StartOf(files, k) + |files[k]|;
      assert Flat(files)[at..] == Flat(files[..n])[at..] + files[n];
    }
  }

  // A write inside one file is the same write on the virtual disk.
  lemma FlatSplice(files: seq<bytes>, k: nat, at: nat, b: bytes)
    requires k < |files| && at + |b| <= |files[k]|
    ensures StartOf(files, k) + at + |b| <= |Flat(files)|
    ensures Flat(files[k := Splice(files[k], at, b)]) == Splice(Flat(files), StartOf(files, k) + at, b)
  {
    FlatUpdateOther(files, k, Splice(files[k], at, b));
    var pre, post := Flat(files[..k]), Flat(files)[StartOf(files, k) + |files[k]|..];
    assert Flat(files) == pre + files[k] + post;
    SpliceMiddle(pre, files[k], post, at, b);
  }

  lemma SpliceMiddle(pre: bytes, d: bytes, post: bytes, at: nat, b: bytes)
    requires at + |b| <= |d|
    ensures Splice(pre + d + post, |pre| + at, b) == pre + Splice(d, at, b) + post
  {
    var whole := pre + d + post;
    assert whole[..|pre| + at] == pre + d[..at];
    assert whole[|pre| + at + |b|..] == d[at + |b|..] + post;
  }

  // A read inside one file is the same read on the virtual disk.
  lemma FlatSlice(files: seq<bytes>, k: nat, at: nat, n: nat)
    requires k < |files| && at + n <= |files[k]|
    ensures StartOf(files, k) + at + n <= |Flat(files)|
    ensures files[k][at..at + n] == Flat(files)[StartOf(files, k) + at..StartOf(files, k) + at + n]
  {
    FlatUpdateOther(files, k, files[k]);
    var pre, post := Flat(files[..k]), Flat(files)[StartOf(files, k) + |files[k]|..];
    assert Flat(files) == pre + files[k] + post && StartOf(files, k) == |pre|;
    hide Flat, StartOf;
    SliceMiddle(pre, files[k], post, at, n);
  }

  lemma SliceMiddle(pre: bytes, d: bytes, post: bytes, at: nat, n: nat)
    requires at + n <= |d|
    ensures (pre + d + post)[|pre| + at..|pre| + at + n] == d[at..at + n]
  {
  }

  lemma SpliceTwice(d: bytes, at: nat, b: bytes, m: nat, n: nat)
    requires at + |b| <= |d| && m <= n <= |b|
    ensures Splice(Splice(d, at, b[..m]), at + m, b[m..n]) == Splice(d, at, b[..n])
  {
    assert b[..n] == b[..m] + b[m..n];
    var one := Splice(d, at, b[..m]);
    assert one[..at + m] == d[..at] + b[..m];
    assert one[at + n..] == d[at + n..];
  }

  // What a splice leaves behind: its own bytes, and every other byte as it was.
  lemma SpliceRead(d: bytes, at: nat, b: bytes, lo: nat, hi: nat)
    requires at + |b| <= |d| && lo <= hi <= |d|
    ensures Splice(d, at, b)[at..at + |b|] == b
    ensures hi <= at || at + |b| <= lo ==> Splice(d, at, b)[lo..hi] == d[lo..hi]
  {
  }
}
