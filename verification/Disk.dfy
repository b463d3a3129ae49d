// The loops that scatter a piece over the files and gather it again.
module Disk {
  import opened Common
  import opened DiskSpec

  // A file of the torrent; Content stands for the bytes stored on disk.
  class BundleFile {
    const Length: nat
    const ByteStart: nat
    var Content: bytes

    constructor (length: nat, byteStart: nat)
      ensures Length == length && ByteStart == byteStart
      ensures Content == Zeros(length)
    {
      Length := length;
      ByteStart := byteStart;
      Content := Zeros(length);
    }

    method WriteAt(b: bytes, at: nat)
      requires at + |b| <= |Content|
      modifies this
      ensures Content == Splice(old(Content), at, b)
    {
      Content := Splice(Content, at, b);
    }
  }

  ghost function Contents(files: seq<BundleFile>): (r: seq<bytes>)
    reads files
    ensures |r| == |files| && forall k :: 0 <= k < |files| ==> r[k] == files[k].Content
  {
    seq(|files|, k requires 0 <= k < |files| reads files => files[k].Content)
  }

  // The files of a bundle keep the layout they were created with.
  ghost predicate SameLayout(files: seq<BundleFile>, before: seq<bytes>)
    reads files
  {
    && |before| == |files|
    && forall k :: 0 <= k < |files| ==>
        && files[k].ByteStart == StartOf(before, k)
        && |files[k].Content| == files[k].Length == |before[k]|
  }

  // Distinct files, each as long as declared, declared end to end.
  ghost predicate LaidOut(files: seq<BundleFile>)
    reads files
  {
    Distinct(files) && SameLayout(files, Contents(files))
  }

  lemma ContentsAfterWrite(files: seq<BundleFile>, before: seq<bytes>, k: nat, at: nat, b: bytes)
    requires k < |files| && Distinct(files)
    requires |before| == |files| && at + |b| <= |before[k]|
    requires files[k].Content == Splice(before[k], at, b)
    requires forall i :: 0 <= i < |files| && i != k ==> files[i].Content == before[i]
    ensures Contents(files) == before[k := Splice(before[k], at, b)]
  {
  }

  lemma {:induction false} SameLengthsSameStarts(a: seq<bytes>, b: seq<bytes>, k: nat)
    requires |a| == |b| && k <= |a|
    requires forall i :: 0 <= i < |a| ==> |a[i]| == |b[i]|
    ensures StartOf(a, k) == StartOf(b, k)
  {
    if k == 0 {
    } else {
      SameLengthsSameStarts(a, b, k - 1);
      StartOfNext(a, k - 1);
      StartOfNext(b, k - 1);
    }
  }

  // Both file loops walk through the files with a running offset into the
  // piece: before file k it is the number of piece bytes in the files before k.
  lemma FileStep(fileStart: nat, fileLength: nat, offset: nat, length: nat, start: nat)
    requires start == Covered(fileStart, offset, length)
    ensures fileStart > start + offset || fileStart + fileLength < start + offset ==>
              Covered(fileStart + fileLength, offset, length) == start
    ensures !(fileStart > start + offset || fileStart + fileLength < start + offset) ==>
              var end := SegmentEnd(fileStart, fileLength, offset, length);
              && start <= end <= length
              && end + offset <= fileStart + fileLength
              && Covered(fileStart + fileLength, offset, length) == end
  {
  }

  function SegmentEnd(fileStart: nat, fileLength: nat, offset: nat, length: nat): int {
    if length + offset > fileStart + fileLength then fileStart + fileLength - offset else length
  }

  // One write of the scatter loop.
  lemma ScatterStep(disk: bytes, files: seq<bytes>, k: nat, data: bytes, offset: nat, start: nat, end: nat)
    requires k < |files| && offset + |data| <= |disk|
    requires start <= end <= |data|
    requires Flat(files) == Splice(disk, offset, data[..start])
    requires StartOf(files, k) <= start + offset && end + offset <= StartOf(files, k) + |files[k]|
    ensures var at := start + offset - StartOf(files, k);
            && at + |data[start..end]| <= |files[k]|
            && Flat(files[k := Splice(files[k], at, data[start..end])]) == Splice(disk, offset, data[..end])
  {
    var at := start + offset - StartOf(files, k);
    FlatSplice(files, k, at, data[start..end]);
    SpliceTwice(disk, offset, data, start, end);
  }

  lemma SameLayoutIsLaidOut(files: seq<BundleFile>, before: seq<bytes>)
    requires Distinct(files) && SameLayout(files, before)
    ensures LaidOut(files)
    ensures forall k :: 0 <= k <= |files| ==> StartOf(Contents(files), k) == StartOf(before, k)
    ensures |Flat(Contents(files))| == |Flat(before)|
  {
    forall k | 0 <= k <= |files|
      ensures StartOf(Contents(files), k) == StartOf(before, k)
    {
      SameLengthsSameStarts(Contents(files), before, k);
    }
    StartOfAll(before);
    StartOfAll(Contents(files));
  }

  // What is written before file k: the part of the piece that lies before it.
  ghost predicate Scattered(files: seq<BundleFile>, before: seq<bytes>, k: nat, data: bytes, offset: nat, start: nat)
    requires |before| == |files|
    requires k <= |files| && offset + |data| <= |Flat(before)|
    reads files
  {
    && SameLayout(files, before)
    && start == Covered(StartOf(before, k), offset, |data|)
    && Flat(Contents(files)) == Splice(Flat(before), offset, data[..start])
  }

  lemma SkipFile(files: seq<BundleFile>, before: seq<bytes>, k: nat, data: bytes, offset: nat, start: nat)
    requires |before| == |files|
    requires k < |files| && offset + |data| <= |Flat(before)|
    requires Scattered(files, before, k, data, offset, start)
    requires files[k].ByteStart > start + offset || files[k].ByteStart + files[k].Length < start + offset
    ensures Scattered(files, before, k + 1, data, offset, start)
  {
    StartOfNext(before, k);
    FileStep(files[k].ByteStart, files[k].Length, offset, |data|, start);
  }

  // Writes the part of the piece that lies in file k.
  method WriteSegment(files: seq<BundleFile>, k: nat, ghost before: seq<bytes>,
                      data: bytes, offset: nat, start: nat, end: int)
    requires |before| == |files|
    requires Distinct(files) && k < |files| && offset + |data| <= |Flat(before)|
    requires Scattered(files, before, k, data, offset, start)
    requires files[k].ByteStart <= start + offset <= files[k].ByteStart + files[k].Length
    requires end == SegmentEnd(files[k].ByteStart, files[k].Length, offset, |data|)
    modifies files
    ensures start <= end <= |data| && Scattered(files, before, k + 1, data, offset, end)
  {
    hide Splice, Flat;
    ghost var now := Contents(files);
    SameLayoutIsLaidOut(files, before);
    StartOfNext(before, k);
    FileStep(files[k].ByteStart, files[k].Length, offset, |data|, start);
    var at := start + offset - files[k].ByteStart;
    ScatterStep(Flat(before), now, k, data, offset, start, end);
    files[k].WriteAt(data[start..end], at);
    ContentsAfterWrite(files, now, k, at, data[start..end]);
  }

  lemma ScatteredNone(files: seq<BundleFile>, data: bytes, offset: nat)
    requires LaidOut(files) && offset + |data| <= |Flat(Contents(files))|
    ensures Scattered(files, Contents(files), 0, data, offset, 0)
  {
    StartOfAll(Contents(files));
  }

  // Once the whole piece is written, the files that follow need nothing.
  lemma ScatteredAll(files: seq<BundleFile>, before: seq<bytes>, k: nat, data: bytes, offset: nat, start: nat)
    requires |before| == |files| && Distinct(files)
    requires k <= |files| && offset + |data| <= |Flat(before)|
    requires Scattered(files, before, k, data, offset, start)
    requires k == |files| || start == |data|
    ensures LaidOut(files) && Flat(Contents(files)) == Splice(Flat(before), offset, data)
  {
    StartOfAll(before);
    assert start == |data| && data[..start] == data;
    SameLayoutIsLaidOut(files, before);
  }

  // Scatters data over the files from virtual offset on.
  method Scatter(files: seq<BundleFile>, data: bytes, offset: nat)
    requires LaidOut(files) && offset + |data| <= |Flat(Contents(files))|
    modifies files
    ensures LaidOut(files)
    ensures Flat(Contents(files)) == Splice(old(Flat(Contents(files))), offset, data)
  {
    hide Covered, Splice, Flat;
    ghost var before := Contents(files);
    ScatteredNone(files, data, offset);
    var start: nat := 0;
    for k := 0 to |files|
      invariant Scattered(files, before, k, data, offset, start)
    {
      var file := files[k];
      if file.ByteStart > start + offset || file.ByteStart + file.Length < start + offset {
        SkipFile(files, before, k, data, offset, start);
        continue;
      }
      var end := |data|;
      if end + offset > file.ByteStart + file.Length {
        end := file.ByteStart + file.Length - offset;
      }
      WriteSegment(files, k, before, data, offset, start, end);
      if end == offset + |data| {
        ScatteredAll(files, before, k + 1, data, offset, end);
        return;
      }
      start := end;
    }
    ScatteredAll(files, before, |files|, data, offset, start);
  }

  // The bytes [start, end) of a piece at offset, all of which lie in one file.
  function Segment(file: bytes, fileStart: nat, offset: nat, start: nat, end: nat): bytes
    requires start <= end && fileStart <= start + offset && end + offset <= fileStart + |file|
  {
    file[start + offset - fileStart..end + offset - fileStart]
  }

  // What is read before file k: the part of the piece that lies before it.
  ghost predicate Gathered(files: seq<bytes>, k: nat, offset: nat, length: nat, start: nat, data: bytes)
    requires k <= |files|
  {
    && start == Covered(StartOf(files, k), offset, length)
    && offset + start <= |Flat(files)|
    && data == Flat(files)[offset..offset + start]
  }

  lemma GatherStep(files: seq<bytes>, k: nat, fileStart: nat, data: bytes, offset: nat, length: nat, start: nat)
    requires k < |files| && fileStart == StartOf(files, k)
    requires Gathered(files, k, offset, length, start, data)
    ensures if fileStart > start + offset || fileStart + |files[k]| < start + offset
            then Gathered(files, k + 1, offset, length, start, data)
            else
              var end := SegmentEnd(fileStart, |files[k]|, offset, length);
              && start <= end <= length && end + offset <= fileStart + |files[k]|
              && Gathered(files, k + 1, offset, length, end, data + Segment(files[k], fileStart, offset, start, end))
  {
    StartOfNext(files, k);
    FileStep(fileStart, |files[k]|, offset, length, start);
    if !(fileStart > start + offset || fileStart + |files[k]| < start + offset) {
      var end := SegmentEnd(fileStart, |files[k]|, offset, length);
      FlatSlice(files, k, start + offset - fileStart, end - start);
      assert Flat(files)[offset..offset + end] == Flat(files)[offset..offset + start] + Flat(files)[offset + start..offset + end];
    }
  }

  lemma GatheredAll(files: seq<bytes>, offset: nat, length: nat)
    requires offset + length <= |Flat(files)|
    ensures Gathered(files, 0, offset, length, 0, [])
    ensures forall start: nat, data :: Gathered(files, |files|, offset, length, start, data) ==>
              start == length && data == Flat(files)[offset..offset + length]
  {
    StartOfAll(files);
  }

  // Once the whole piece is read, the files that follow add nothing.
  lemma {:induction false} GatheredEarly(files: seq<bytes>, k: nat, offset: nat, length: nat, data: bytes)
    requires k <= |files| && Gathered(files, k, offset, length, length, data)
    ensures Gathered(files, |files|, offset, length, length, data)
    decreases |files| - k
  {
    if k < |files| {
      StartOfNext(files, k);
      GatheredEarly(files, k + 1, offset, length, data);
    }
  }

  // Gathers length bytes from virtual offset on.
  method Gather(files: seq<BundleFile>, length: nat, offset: nat) returns (data: bytes)
    requires LaidOut(files) && offset + length <= |Flat(Contents(files))|
    ensures data == Flat(Contents(files))[offset..offset + length]
  {
    ghost var now := Contents(files);
    GatheredAll(now, offset, length);
    data := [];
    var start: nat := 0;
    for k := 0 to |files|
      invariant Gathered(now, k, offset, length, start, data)
    {
      var file := files[k];
      GatherStep(now, k, file.ByteStart, data, offset, length, start);
      if file.ByteStart > start + offset || file.ByteStart + file.Length < start + offset {
        continue;
      }
      var end := length;
      if end + offset > file.ByteStart + file.Length {
        end := file.ByteStart + file.Length - offset;
      }
      data := data + Segment(file.Content, file.ByteStart, offset, start, end);
      if end == offset + length {
        GatheredEarly(now, k + 1, offset, length, data);
        return;
      }
      start := end;
    }
  }
}
