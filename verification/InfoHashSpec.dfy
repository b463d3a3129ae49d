// The scanner that finds the info dictionary in a torrent file by searching for
// its key and counting containers, without tokenizing.
module InfoHashSpec {
  import opened Common
  import opened BencodeSpec
  import opened BencodeRoundTrip

  // Where the scan ended, or how it did not: a malformed length, an index out of
  // range, or a byte it never gets past.
  datatype ScanResult = End(at: nat) | BadLength | OutOfRange | Stuck

  // The first position from i on that holds no digit, or the end.
  function SkipDigits(data: bytes, i: nat): (k: nat)
    requires i <= |data|
    ensures i <= k <= |data|
    ensures forall j :: i <= j < k ==> IsDigit(data[j])
    ensures k < |data| ==> !IsDigit(data[k])
    decreases |data| - i
  {
    if i == |data| || !IsDigit(data[i]) then i else SkipDigits(data, i + 1)
  }

  // One round of the loop at position i: the string there, if one starts, is
  // skipped; the byte behind it then decides.
  datatype Skip = SkipTo(at: nat) | SkipBad | SkipOut

  function SkipString(data: bytes, i: nat): (s: Skip)
    requires i < |data|
    ensures s.SkipTo? ==> s.at >= i && (!IsDigit(data[i]) ==> s.at == i)
  {
    if !IsDigit(data[i]) then SkipTo(i)
    else
      var j := SkipDigits(data, i + 1);
      if j == |data| then SkipOut
      else if data[j] != COLON then SkipTo(i)
      else
        var n := ParseInt(data[i..j], INT32_LIMIT);
        if n.None? then SkipBad
        else if n.value < 0 then SkipOut else SkipTo(j + n.value + 1)
  }

  // The counting loop from position i on, with this many containers open.
  function Scan(data: bytes, i: nat, count: nat): ScanResult
    decreases |data| - i
  {
    if i >= |data| || count == 0 then End(i)
    else
      match SkipString(data, i)
      case SkipBad => BadLength
      case SkipOut => OutOfRange
      case SkipTo(k) =>
        if k >= |data| then OutOfRange
        else if data[k] == LOWER_I then
          var e := Find(data, k, LOWER_E);
          if e == |data| then OutOfRange else Scan(data, e + 1, count)
        else if data[k] == LOWER_D || data[k] == LOWER_L then Scan(data, k + 1, count + 1)
        else if data[k] == LOWER_E then Scan(data, k + 1, count - 1)
        else if k == i then Stuck
        else Scan(data, k, count)
  }

  // "4:infod"
  const INFO_KEY: bytes := [ZERO + 4, COLON, 105, 110, 102, 111]
  const NEEDLE: bytes := INFO_KEY + [LOWER_D]
  const INFO: bytes := [105, 110, 102, 111]
  const LETTER_A: bytes := [97]

  predicate NeedleAt(data: bytes, i: nat) {
    i + 7 <= |data| && data[i..i + 7] == NEEDLE
  }

  // The first occurrence of the needle from i on; the last place one would fit
  // when there is none.
  function Search(data: bytes, i: nat): (r: nat)
    requires i + 7 <= |data|
    ensures i <= r <= |data| - 7
    ensures forall j :: i <= j < r ==> !NeedleAt(data, j)
    ensures r < |data| - 7 ==> NeedleAt(data, r)
    decreases |data| - i
  {
    if i < |data| - 7 && !NeedleAt(data, i) then Search(data, i + 1) else i
  }

  // The range of the input that is hashed.
  datatype HashOutcome = Range(from: nat, to: nat) | NoHash(why: ScanResult)

  function InfoRange(data: bytes): HashOutcome {
    if |data| < 7 then NoHash(OutOfRange)
    else
      var i := Search(data, 0);
      var r := Scan(data, i + 7, 1);
      if r.End? then Range(i + 6, r.at) else NoHash(r)
  }

  // ----- the counter skips every encoded value -----

  lemma {:induction false} SkipDecimal(data: bytes, i: nat, n: nat)
    requires At(data, i, Decimal(n) + [COLON])
    ensures i < |data| && IsDigit(data[i]) && SkipDigits(data, i + 1) == i + |Decimal(n)| < |data|
    ensures data[i + |Decimal(n)|] == COLON && data[i..i + |Decimal(n)|] == Decimal(n)
    ensures ParseInt(Decimal(n), INT32_LIMIT) == if n < INT32_LIMIT then Some(n) else None
  {
    var d := Decimal(n);
    AtSplit(data, i, d, [COLON]);
    AtFirst(data, i + |d|, [COLON]);
    forall j | i <= j < i + |d|
      ensures IsDigit(data[j])
    {
      assert data[i..i + |d|][j - i] == d[j - i];
    }
    DecimalRoundTrip(n);
  }

  lemma {:induction false} ScanStr(data: bytes, i: nat, s: bytes, count: nat)
    requires At(data, i, EncodeStr(s)) && i + |EncodeStr(s)| < |data| && count > 0
    ensures Scan(data, i, count) == if |s| < INT32_LIMIT then Scan(data, i + |EncodeStr(s)|, count) else BadLength
  {
    hide Scan, SkipString, SkipDigits, ParseInt, Decimal, At;
    var d := Decimal(|s|);
    AtSplit(data, i, d + [COLON], s);
    SkipDecimal(data, i, |s|);
    var e := i + |EncodeStr(s)|;
    SkipsString(data, i, |d|, |s|);
    if |s| < INT32_LIMIT {
      BehindString(data, i, e, count);
    } else {
      BadHeader(data, i, count);
    }
  }

  lemma {:induction false} SkipsString(data: bytes, i: nat, d: nat, n: nat)
    requires i < |data| && IsDigit(data[i]) && SkipDigits(data, i + 1) == i + d < |data| && data[i + d] == COLON
    requires ParseInt(data[i..i + d], INT32_LIMIT) == if n < INT32_LIMIT then Some(n) else None
    ensures SkipString(data, i) == if n < INT32_LIMIT then SkipTo(i + d + n + 1) else SkipBad
  {
    hide SkipDigits, ParseInt;
  }

  lemma {:induction false} BadHeader(data: bytes, i: nat, count: nat)
    requires i < |data| && count > 0 && SkipString(data, i) == SkipBad
    ensures Scan(data, i, count) == BadLength
  {
    hide SkipString;
  }

  // Behind a skipped string the same round goes on as a new one would.
  lemma {:induction false} BehindString(data: bytes, i: nat, e: nat, count: nat)
    requires i < e < |data| && count > 0 && SkipString(data, i) == SkipTo(e)
    ensures Scan(data, i, count) == Scan(data, e, count)
  {
    hide SkipDigits, ParseInt, Find;
    if !IsDigit(data[e]) {
      assert SkipString(data, e) == SkipTo(e);
    }
    if data[e] !in {LOWER_I, LOWER_D, LOWER_L, LOWER_E} {
      hide SkipString;
    }
  }

  lemma {:induction false} ScanInt(data: bytes, i: nat, n: int, count: nat)
    requires At(data, i, EncodeInt(n)) && count > 0
    ensures Scan(data, i, count) == Scan(data, i + |EncodeInt(n)|, count)
  {
    hide Scan, Find, IntText, SkipDigits, ParseInt;
    var t := IntText(n);
    assert EncodeInt(n) == [LOWER_I] + (t + [LOWER_E]);
    AtSplit(data, i, [LOWER_I], t + [LOWER_E]);
    AtFirst(data, i, [LOWER_I]);
    assert EncodeInt(n) == ([LOWER_I] + t) + [LOWER_E];
    assert LOWER_E !in [LOWER_I] + t;
    FindStops(data, i, [LOWER_I] + t, LOWER_E);
    AtSplit(data, i, [LOWER_I] + t, [LOWER_E]);
    assert i + 1 + |t| < |data|;
    hide At;
    ScanIntText(data, i, i + 1 + |t|, count);
  }

  lemma {:induction false} ScanIntText(data: bytes, i: nat, e: nat, count: nat)
    requires i < |data| && data[i] == LOWER_I && Find(data, i, LOWER_E) == e < |data| && count > 0
    ensures Scan(data, i, count) == Scan(data, e + 1, count)
  {
    hide Find, SkipDigits, ParseInt;
    assert SkipString(data, i) == SkipTo(i);
    hide SkipString;
  }

  // The scanner gets through a value exactly when its strings are short enough.
  lemma {:induction false} ScanEncoded(data: bytes, i: nat, v: Value, count: nat)
    requires At(data, i, Encode(v)) && i + |Encode(v)| < |data| && count > 0
    ensures Scan(data, i, count)
         == if Short(v, INT32_LIMIT) then Scan(data, i + |Encode(v)|, count) else BadLength
    decreases v, 1, 0
  {
    hide Scan, EncodeStr, EncodeInt, At;
    if v.List? {
      ScanList(data, i, v, count);
    } else if v.Dict? {
      ScanDict(data, i, v, count);
    } else {
      if v.Str? {
        ScanStr(data, i, v.s, count);
      } else {
        ScanInt(data, i, v.n, count);
      }
    }
  }

  lemma {:induction false} ScanOpen(data: bytes, i: nat, count: nat)
    requires i < |data| && (data[i] == LOWER_D || data[i] == LOWER_L) && count > 0
    ensures Scan(data, i, count) == Scan(data, i + 1, count + 1)
  {
  }

  lemma {:induction false} ScanClose(data: bytes, i: nat, count: nat)
    requires i < |data| && data[i] == LOWER_E
    ensures Scan(data, i, count + 1) == Scan(data, i + 1, count)
  {
  }

  lemma {:induction false} ScanList(data: bytes, i: nat, v: Value, count: nat)
    requires v.List? && At(data, i, Encode(v)) && i + |Encode(v)| < |data| && count > 0
    ensures Scan(data, i, count)
         == if Short(v, INT32_LIMIT) then Scan(data, i + |Encode(v)|, count) else BadLength
    decreases v, 0, |v.items| + 1
  {
    hide Scan, EncodeItems;
    var n := |v.items|;
    var inner := EncodeItems(v, n);
    ItemsAt(data, i, v, n);
    AtSplit(data, i, [LOWER_L] + inner, [LOWER_E]);
    AtFirst(data, i, [LOWER_L] + inner);
    AtFirst(data, i + 1 + |inner|, [LOWER_E]);
    hide At;
    ScanOpen(data, i, count);
    ScanItems(data, i + 1, v, n, count + 1);
    ScanClose(data, i + 1 + |inner|, count);
  }

  ghost predicate ShortItems(v: Value, k: nat)
    requires v.List? && k <= |v.items|
  {
    forall i :: 0 <= i < k ==> Short(v.items[i], INT32_LIMIT)
  }

  lemma {:induction false} ScanItems(data: bytes, i: nat, v: Value, k: nat, count: nat)
    requires v.List? && k <= |v.items| && At(data, i, EncodeItems(v, k)) && i + |EncodeItems(v, k)| < |data|
    requires count > 0
    ensures Scan(data, i, count) == if ShortItems(v, k) then Scan(data, i + |EncodeItems(v, k)|, count) else BadLength
    decreases v, 0, k
  {
    hide *;
    if k == 0 {
      NoItems(v);
      NoShortItems(v);
    } else {
      ItemsSplit(data, i, v, k);
      ScanItems(data, i, v, k - 1, count);
      ScanEncoded(data, i + |EncodeItems(v, k - 1)|, v.items[k - 1], count);
      OneMoreShortItem(v, k);
    }
  }

  lemma {:induction false} NoShortItems(v: Value)
    requires v.List?
    ensures ShortItems(v, 0)
  {
  }

  lemma {:induction false} OneMoreShortItem(v: Value, k: nat)
    requires v.List? && 0 < k <= |v.items|
    ensures ShortItems(v, k) <==> ShortItems(v, k - 1) && Short(v.items[k - 1], INT32_LIMIT)
  {
    hide Short;
  }

  lemma {:induction false} ItemsSplit(data: bytes, i: nat, v: Value, k: nat)
    requires v.List? && 0 < k <= |v.items| && At(data, i, EncodeItems(v, k))
    ensures At(data, i, EncodeItems(v, k - 1))
    ensures At(data, i + |EncodeItems(v, k - 1)|, Encode(v.items[k - 1]))
    ensures |EncodeItems(v, k)| == |EncodeItems(v, k - 1)| + |Encode(v.items[k - 1])|
  {
    hide At, Encode;
    AtSplit(data, i, EncodeItems(v, k - 1), Encode(v.items[k - 1]));
  }

  lemma {:induction false} ScanDict(data: bytes, i: nat, v: Value, count: nat)
    requires v.Dict? && At(data, i, Encode(v)) && i + |Encode(v)| < |data| && count > 0
    ensures Scan(data, i, count)
         == if Short(v, INT32_LIMIT) then Scan(data, i + |Encode(v)|, count) else BadLength
    decreases v, 0, |SortedKeys(v.entries.Keys)| + 1
  {
    hide Scan, EncodeEntries, SortedKeys;
    var keys := SortedKeys(v.entries.Keys);
    var inner := EncodeEntries(v, keys);
    EntriesWhole(data, i, v);
    AtSplit(data, i, [LOWER_D] + inner, [LOWER_E]);
    AtFirst(data, i, [LOWER_D] + inner);
    AtFirst(data, i + 1 + |inner|, [LOWER_E]);
    hide At;
    ScanOpen(data, i, count);
    ScanEntries(data, i + 1, v, keys, count + 1);
    ScanClose(data, i + 1 + |inner|, count);
    assert ShortEntries(v, keys) <==> Short(v, INT32_LIMIT);
  }

  ghost predicate ShortEntries(v: Value, keys: seq<bytes>)
    requires v.Dict? && forall k :: k in keys ==> k in v.entries
  {
    forall k :: k in keys ==> |k| < INT32_LIMIT && Short(v.entries[k], INT32_LIMIT)
  }

  lemma {:induction false} ScanEntries(data: bytes, i: nat, v: Value, keys: seq<bytes>, count: nat)
    requires v.Dict? && forall k :: k in keys ==> k in v.entries
    requires At(data, i, EncodeEntries(v, keys)) && i + |EncodeEntries(v, keys)| < |data| && count > 0
    ensures Scan(data, i, count)
         == if ShortEntries(v, keys) then Scan(data, i + |EncodeEntries(v, keys)|, count) else BadLength
    decreases v, 0, |keys|
  {
    hide *;
    if keys == [] {
      NoEntries(v);
      NoShortEntries(v);
    } else {
      var before, last := keys[..|keys| - 1], keys[|keys| - 1];
      var j := i + |EncodeEntries(v, before)|;
      EntriesSplit(data, i, v, keys);
      ScanEntries(data, i, v, before, count);
      ScanStr(data, j, last, count);
      ScanEncoded(data, j + |EncodeStr(last)|, v.entries[last], count);
      OneMoreShortEntry(v, keys);
    }
  }

  lemma {:induction false} NoShortEntries(v: Value)
    requires v.Dict?
    ensures ShortEntries(v, [])
  {
  }

  lemma {:induction false} OneMoreShortEntry(v: Value, keys: seq<bytes>)
    requires v.Dict? && keys != [] && forall k :: k in keys ==> k in v.entries
    ensures var last := keys[|keys| - 1];
            ShortEntries(v, keys) <==>
              ShortEntries(v, keys[..|keys| - 1]) && |last| < INT32_LIMIT && Short(v.entries[last], INT32_LIMIT)
  {
    hide Short;
    assert keys == keys[..|keys| - 1] + [keys[|keys| - 1]];
  }

  lemma {:induction false} EntriesSplit(data: bytes, i: nat, v: Value, keys: seq<bytes>)
    requires v.Dict? && keys != [] && forall k :: k in keys ==> k in v.entries
    requires At(data, i, EncodeEntries(v, keys))
    ensures var before, last := keys[..|keys| - 1], keys[|keys| - 1];
            var j := i + |EncodeEntries(v, before)|;
            && At(data, i, EncodeEntries(v, before)) && At(data, j, EncodeStr(last))
            && At(data, j + |EncodeStr(last)|, Encode(v.entries[last]))
            && |EncodeEntries(v, keys)| == |EncodeEntries(v, before)| + |EncodeStr(last)| + |Encode(v.entries[last])|
  {
    hide At, Encode, EncodeStr;
    var before, last := keys[..|keys| - 1], keys[|keys| - 1];
    AtSplit(data, i, EncodeEntries(v, before) + EncodeStr(last), Encode(v.entries[last]));
    AtSplit(data, i, EncodeEntries(v, before), EncodeStr(last));
  }

  // ----- the info dictionary of an encoded torrent -----

  // Where the entry for a key starts in the encoding.
  ghost function EntryStart(v: Value, n: nat): nat
    requires v.Dict? && n <= |SortedKeys(v.entries.Keys)|
  {
    KeysAreEntries(v, SortedKeys(v.entries.Keys)[..n]);
    1 + |EncodeEntries(v, SortedKeys(v.entries.Keys)[..n])|
  }

  lemma {:induction false} AtAll(data: bytes)
    ensures At(data, 0, data)
  {
    assert data[0..|data|] == data;
  }

  lemma {:induction false} EntryAt(v: Value, n: nat)
    requires v.Dict? && n < |SortedKeys(v.entries.Keys)|
    ensures var k := SortedKeys(v.entries.Keys)[n];
            && k in v.entries
            && At(Encode(v), EntryStart(v, n), EncodeStr(k))
            && At(Encode(v), EntryStart(v, n) + |EncodeStr(k)|, Encode(v.entries[k]))
            && EntryStart(v, n) + |EncodeStr(k)| + |Encode(v.entries[k])| < |Encode(v)|
  {
    hide *;
    var all := SortedKeys(v.entries.Keys);
    var keys := all[..n + 1];
    assert keys[..|keys| - 1] == all[..n] && keys[n] == all[n] && all[n] in keys;
    AtAll(Encode(v));
    EntriesAt(Encode(v), 0, v, keys);
    EntriesSplit(Encode(v), 1, v, keys);
    EntriesFit(v, keys);
    EntryStartIs(v, n);
  }

  lemma {:induction false} EntryStartIs(v: Value, n: nat)
    requires v.Dict? && n <= |SortedKeys(v.entries.Keys)|
    ensures var keys := SortedKeys(v.entries.Keys)[..n];
            (forall k :: k in keys ==> k in v.entries) && EntryStart(v, n) == 1 + |EncodeEntries(v, keys)|
  {
    KeysAreEntries(v, SortedKeys(v.entries.Keys)[..n]);
    hide EncodeEntries, SortedKeys;
  }

  lemma {:induction false} EntriesFit(v: Value, keys: seq<bytes>)
    requires v.Dict? && keys <= SortedKeys(v.entries.Keys)
    ensures forall k :: k in keys ==> k in v.entries
    ensures 1 + |EncodeEntries(v, keys)| < |Encode(v)|
  {
    var all := SortedKeys(v.entries.Keys);
    KeysAreEntries(v, keys);
    EntriesGrow(v, keys, all);
    hide EncodeEntries, SortedKeys;
  }

  lemma {:induction false} EntriesGrow(v: Value, keys: seq<bytes>, more: seq<bytes>)
    requires v.Dict? && keys <= more && forall k :: k in more ==> k in v.entries
    ensures forall k :: k in keys ==> k in v.entries
    ensures |EncodeEntries(v, keys)| <= |EncodeEntries(v, more)|
    decreases |more|
  {
    assert forall k :: k in keys ==> k in more;
    if keys != more {
      hide Encode, EncodeStr;
      EntriesGrow(v, keys, more[..|more| - 1]);
    }
  }

  predicate HasInfo(v: Value) {
    v.Dict? && INFO in v.entries && v.entries[INFO].Dict?
  }

  // The info dictionary.
  function InfoOf(v: Value): Value
    requires HasInfo(v)
  {
    v.entries[INFO]
  }

  function Position(keys: seq<bytes>, k: bytes): (n: nat)
    requires k in keys
    ensures n < |keys| && keys[n] == k
  {
    if keys[0] == k then 0 else 1 + Position(keys[1..], k)
  }

  // Where the info key starts in the encoding.
  ghost function InfoStart(v: Value): nat
    requires HasInfo(v)
  {
    EntryStart(v, Position(SortedKeys(v.entries.Keys), INFO))
  }

  lemma {:induction false} InfoKeyEncoding()
    ensures EncodeStr(INFO) == INFO_KEY
  {
    assert Decimal(4) == [ZERO + 4];
  }

  lemma {:induction false} DictStarts(v: Value)
    requires v.Dict?
    ensures |Encode(v)| >= 2 && Encode(v)[0] == LOWER_D
  {
  }

  lemma {:induction false} NeedleThere(data: bytes, i: nat)
    requires At(data, i, INFO_KEY) && i + 6 < |data| && data[i + 6] == LOWER_D
    ensures NeedleAt(data, i)
  {
    assert data[i..i + 7] == data[i..i + 6] + [data[i + 6]];
  }

  ghost predicate InfoIsAt(v: Value, i: nat)
    requires HasInfo(v)
  {
    && At(Encode(v), i, INFO_KEY) && At(Encode(v), i + 6, Encode(InfoOf(v)))
    && i + 6 + |Encode(InfoOf(v))| < |Encode(v)|
    && NeedleAt(Encode(v), i)
  }

  lemma {:induction false} InfoAt(v: Value)
    requires HasInfo(v)
    ensures InfoIsAt(v, InfoStart(v)) && |Encode(v)| >= 7
  {
    hide Encode, EncodeStr, SortedKeys, EntryStart, At, NeedleAt, Position;
    var n := Position(SortedKeys(v.entries.Keys), INFO);
    EntryAt(v, n);
    InfoKeyEncoding();
    var data, i, info := Encode(v), InfoStart(v), InfoOf(v);
    DictStarts(info);
    AtFirst(data, i + 6, Encode(info));
    NeedleThere(data, i);
    NeedleFits(data, i);
  }

  lemma {:induction false} NeedleFits(data: bytes, i: nat)
    requires NeedleAt(data, i)
    ensures i + 7 <= |data|
  {
  }

  // The bytes that are hashed.
  ghost predicate Hashes(data: bytes, b: bytes) {
    var r := InfoRange(data);
    r.Range? && r.from <= r.to <= |data| && data[r.from..r.to] == b
  }

  // The encoded info dictionary stands where the first "4:infod" of the file is.
  ghost predicate StandsAtNeedle(v: Value)
    requires HasInfo(v)
  {
    |Encode(v)| >= 7 && At(Encode(v), Search(Encode(v), 0) + 6, Encode(InfoOf(v)))
  }

  // The first "4:infod" of the encoding is the real key.
  ghost predicate RealKeyFirst(v: Value)
    requires HasInfo(v)
  {
    |Encode(v)| >= 7 && Search(Encode(v), 0) == InfoStart(v)
  }

  // The scanner hashes exactly the bytes of the encoded info dictionary if and only
  // if these stand at the first "4:infod" of the file, as they do when that is the
  // real key, and no string in the dictionary is 2 GiB or longer.
  lemma {:induction false} InfoRangeIsInfo(v: Value)
    requires HasInfo(v)
    ensures Hashes(Encode(v), Encode(InfoOf(v))) <==> StandsAtNeedle(v) && Short(InfoOf(v), INT32_LIMIT)
    ensures RealKeyFirst(v) ==> StandsAtNeedle(v)
  {
    hide *;
    InfoAt(v);
    FoundByThen(v);
    StandsThere(v);
    if At(Encode(v), Search(Encode(v), 0) + 6, Encode(InfoOf(v))) {
      ScanInner(Encode(v), Search(Encode(v), 0) + 6, InfoOf(v));
      HashedFrom(Encode(v), Encode(InfoOf(v)), Short(InfoOf(v), INT32_LIMIT));
    } else {
      NotHashed(Encode(v), Encode(InfoOf(v)));
    }
  }

  // The search is over by the time it comes to the real key.
  lemma {:induction false} FoundByThen(v: Value)
    requires HasInfo(v) && InfoIsAt(v, InfoStart(v)) && |Encode(v)| >= 7
    ensures InfoOf(v).Dict? && Search(Encode(v), 0) + 6 + |Encode(InfoOf(v))| < |Encode(v)|
  {
    var s := Search(Encode(v), 0);
    hide Encode, InfoStart, NeedleAt, At, Search;
  }

  lemma {:induction false} StandsThere(v: Value)
    requires HasInfo(v) && InfoIsAt(v, InfoStart(v)) && |Encode(v)| >= 7
    ensures StandsAtNeedle(v) <==> At(Encode(v), Search(Encode(v), 0) + 6, Encode(InfoOf(v)))
    ensures RealKeyFirst(v) ==> StandsAtNeedle(v)
  {
    hide Encode, InfoStart, NeedleAt, At, Search;
  }

  lemma {:induction false} HashedFrom(data: bytes, b: bytes, short: bool)
    requires |data| >= 7 && At(data, Search(data, 0) + 6, b)
    requires ScanGives(data, Search(data, 0) + 7, Search(data, 0) + 6 + |b|, short)
    ensures Hashes(data, b) <==> short
  {
    hide Scan, Search;
  }

  lemma {:induction false} NotHashed(data: bytes, b: bytes)
    requires |data| >= 7 && !At(data, Search(data, 0) + 6, b)
    ensures !Hashes(data, b)
  {
    hide Scan, Search;
  }

  // The range is the place of the info dictionary.
  ghost predicate RangeIsThePlace(v: Value)
    requires HasInfo(v)
  {
    InfoRange(Encode(v)) == Range(InfoStart(v) + 6, InfoStart(v) + 6 + |Encode(InfoOf(v))|)
  }

  // It is if and only if the first "4:infod" is the real key.
  lemma {:induction false} InfoRangeIsThePlace(v: Value)
    requires HasInfo(v)
    ensures RangeIsThePlace(v) <==> RealKeyFirst(v) && Short(InfoOf(v), INT32_LIMIT)
  {
    hide *;
    InfoScanned(v);
    RangeIff(Encode(v), InfoStart(v), InfoStart(v) + 6 + |Encode(InfoOf(v))|, Short(InfoOf(v), INT32_LIMIT));
    Named(v);
  }

  ghost predicate ScanGives(data: bytes, start: nat, end: nat, short: bool) {
    Scan(data, start, 1) == if short then End(end) else BadLength
  }

  lemma {:induction false} InfoScanned(v: Value)
    requires HasInfo(v)
    ensures InfoIsAt(v, InfoStart(v)) && |Encode(v)| >= 7
    ensures ScanGives(Encode(v), InfoStart(v) + 7, InfoStart(v) + 6 + |Encode(InfoOf(v))|,
                      Short(InfoOf(v), INT32_LIMIT))
  {
    hide *;
    InfoAt(v);
    InfoParts(v, InfoStart(v));
    ScanInner(Encode(v), InfoStart(v) + 6, InfoOf(v));
  }

  lemma {:induction false} Named(v: Value)
    requires HasInfo(v) && |Encode(v)| >= 7
    ensures RealKeyFirst(v) <==> Search(Encode(v), 0) == InfoStart(v)
    ensures RangeIsThePlace(v)
       <==> InfoRange(Encode(v)) == Range(InfoStart(v) + 6, InfoStart(v) + 6 + |Encode(InfoOf(v))|)
  {
    hide Encode, InfoStart, Search, InfoRange;
  }

  lemma {:induction false} InfoParts(v: Value, i: nat)
    requires HasInfo(v) && InfoIsAt(v, i)
    ensures At(Encode(v), i + 6, Encode(InfoOf(v))) && InfoOf(v).Dict?
    ensures i + 6 + |Encode(InfoOf(v))| < |Encode(v)|
    ensures Encode(v)[i + 6..i + 6 + |Encode(InfoOf(v))|] == Encode(InfoOf(v))
  {
    hide Encode, NeedleAt;
  }

  lemma {:induction false} RangeIff(data: bytes, i: nat, end: nat, short: bool)
    requires |data| >= 7 && ScanGives(data, i + 7, end, short)
    ensures InfoRange(data) == Range(i + 6, end) <==> Search(data, 0) == i && short
  {
    hide Scan, Search;
  }

  // The scan starts behind the bracket of the dictionary with one open.
  lemma {:induction false} ScanInner(data: bytes, i: nat, info: Value)
    requires info.Dict? && At(data, i, Encode(info)) && i + |Encode(info)| < |data|
    ensures ScanGives(data, i + 1, i + |Encode(info)|, Short(info, INT32_LIMIT))
  {
    hide Scan, EncodeEntries, SortedKeys;
    var keys := SortedKeys(info.entries.Keys);
    var inner := EncodeEntries(info, keys);
    EntriesWhole(data, i, info);
    AtSplit(data, i, [LOWER_D] + inner, [LOWER_E]);
    AtFirst(data, i + 1 + |inner|, [LOWER_E]);
    hide At;
    ScanEntries(data, i + 1, info, keys, 1);
    ScanClose(data, i + 1 + |inner|, 0);
    ScanNone(data, i + 2 + |inner|);
    assert ShortEntries(info, keys) <==> Short(info, INT32_LIMIT);
  }

  lemma {:induction false} ScanNone(data: bytes, i: nat)
    ensures Scan(data, i, 0) == End(i)
  {
  }

  // A string value before the info key can hold one: {"a": "4:infode", "info": ...}.
  function Misleading(info: Value): Value {
    Dict(map[LETTER_A := Str(NEEDLE + [LOWER_E]), INFO := info])
  }

  // Then "de" is hashed, which is not the info dictionary unless that is empty.
  lemma {:induction false} NeedleInAString(info: Value)
    requires info.Dict?
    ensures HasInfo(Misleading(info)) && InfoOf(Misleading(info)) == info
    ensures Hashes(Encode(Misleading(info)), [LOWER_D, LOWER_E])
    ensures Hashes(Encode(Misleading(info)), Encode(info)) <==> info.entries == map[]
  {
    var s, v := NEEDLE + [LOWER_E], Misleading(info);
    ExampleStarts(v, s, info);
    ExampleFound(Encode(v), s);
    ExampleHashed(Encode(v), s);
    DictLength(info);
    hide *;
    HashesOne(Encode(v), Encode(info), [LOWER_D, LOWER_E]);
  }

  lemma {:induction false} HashesOne(data: bytes, a: bytes, b: bytes)
    requires Hashes(data, b)
    ensures Hashes(data, a) <==> a == b
  {
    hide InfoRange;
  }

  lemma {:induction false} DictLength(info: Value)
    requires info.Dict?
    ensures Encode(info) == [LOWER_D, LOWER_E] <==> info.entries == map[]
  {
    var keys := SortedKeys(info.entries.Keys);
    hide Decimal;
    if info.entries == map[] {
      assert keys == [];
    } else {
      var k :| k in info.entries;
      assert k in keys;
      assert |EncodeEntries(info, keys)| > 0;
    }
  }

  // No needle before the one in the string: its first byte is the digit 4.
  lemma {:induction false} ExampleFound(data: bytes, s: bytes)
    requires s == NEEDLE + [LOWER_E] && |data| >= 14 && data[0] == LOWER_D
    requires At(data, 1, [ZERO + 1, COLON, 97]) && At(data, 4, [ZERO + 8, COLON] + s)
    ensures Search(data, 0) == 6
  {
    StringHolds(data, 4, s);
    assert data[1..4] == [ZERO + 1, COLON, 97];
    assert data[1] == data[1..4][0] && data[2] == data[1..4][1] && data[3] == data[1..4][2];
    AtSplit(data, 4, [ZERO + 8, COLON], s);
    assert data[4..6] == [ZERO + 8, COLON];
    assert data[4] == data[4..6][0] && data[5] == data[4..6][1];
    forall j | 0 <= j < 6
      ensures !NeedleAt(data, j)
    {
      NeedleByte(data, j);
    }
  }

  lemma {:induction false} NeedleByte(data: bytes, j: nat)
    ensures NeedleAt(data, j) ==> j < |data| && data[j] == ZERO + 4
  {
    if NeedleAt(data, j) {
      assert data[j..j + 7][0] == NEEDLE[0];
    }
  }

  lemma {:induction false} ExampleHashed(data: bytes, s: bytes)
    requires s == NEEDLE + [LOWER_E] && |data| >= 14 && At(data, 4, [ZERO + 8, COLON] + s) && Search(data, 0) == 6
    ensures Hashes(data, [LOWER_D, LOWER_E])
  {
    AtSplit(data, 4, [ZERO + 8, COLON], s);
    assert data[6..14] == s;
    assert data[12] == data[6..14][6] == LOWER_D && data[13] == data[6..14][7] == LOWER_E;
    ScanClose(data, 13, 0);
    ScanNone(data, 14);
    hide Scan, Search, At;
    assert data[12..14] == [LOWER_D, LOWER_E];
  }

  lemma {:induction false} ExampleStarts(v: Value, s: bytes, info: Value)
    requires v == Dict(map[LETTER_A := Str(s), INFO := info]) && |s| == 8 && info.Dict?
    ensures HasInfo(v) && InfoOf(v) == info
    ensures |Encode(v)| >= 14 && Encode(v)[0] == LOWER_D
    ensures At(Encode(v), 1, [ZERO + 1, COLON, 97]) && At(Encode(v), 4, [ZERO + 8, COLON] + s)
  {
    hide Decimal, SortedKeys, Less, At;
    var first: seq<bytes> := [LETTER_A];
    SortedExample(v);
    EncodedSmall(s);
    EntryAt(v, 0);
    EntryStartIs(v, 0);
    EntryStartIs(v, 1);
    assert [LETTER_A, INFO][..1] == first && first[..0] == [];
    assert [LETTER_A, INFO][1..] == [INFO];
    assert Position([LETTER_A, INFO], INFO) == 1;
    assert EncodeEntries(v, []) == [];
    assert EncodeEntries(v, first) == EncodeStr(LETTER_A) + Encode(Str(s));
  }

  lemma {:induction false} SortedExample(v: Value)
    requires v.Dict? && v.entries.Keys == {LETTER_A, INFO}
    ensures SortedKeys(v.entries.Keys) == [LETTER_A, INFO]
  {
    assert Lists([LETTER_A, INFO], v.entries.Keys);
    SortedOnce(SortedKeys(v.entries.Keys), [LETTER_A, INFO], v.entries.Keys);
  }

  lemma {:induction false} EncodedSmall(s: bytes)
    requires |s| == 8
    ensures EncodeStr(LETTER_A) == [ZERO + 1, COLON, 97] && EncodeStr(s) == [ZERO + 8, COLON] + s
  {
  }

  lemma {:induction false} StringHolds(data: bytes, i: nat, s: bytes)
    requires s == NEEDLE + [LOWER_E] && At(data, i, [ZERO + 8, COLON] + s)
    ensures NeedleAt(data, i + 2)
  {
    AtSplit(data, i, [ZERO + 8, COLON], s);
    AtSplit(data, i + 2, NEEDLE, [LOWER_E]);
  }
}
