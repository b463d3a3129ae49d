// What the scanner makes of files that are no encodings: cut short, without the
// key, or with something in them that it cannot read.
module InfoHashInputs {
  import opened Common
  import opened BencodeSpec
  import opened BencodeRoundTrip
  import opened BencodeText
  import opened InfoHashSpec

  // The key and the bracket behind it.
  predicate KeyAt(data: bytes, i: nat) {
    i + 7 <= |data| && Spells(data[i..i + 7], "4:infod")
  }

  predicate FirstKeyAt(data: bytes, i: nat) {
    KeyAt(data, i) && forall j :: 0 <= j < i ==> !KeyAt(data, j)
  }

  lemma {:induction false} KeyIsNeedle(data: bytes, i: nat)
    ensures KeyAt(data, i) <==> NeedleAt(data, i)
  {
    if i + 7 <= |data| {
      var s := data[i..i + 7];
      assert Spells(s, "4:infod") <==> s == NEEDLE;
    }
  }

  lemma {:induction false} FirstKeyIsFound(data: bytes, i: nat)
    requires FirstKeyAt(data, i)
    ensures |data| >= 7 && Search(data, 0) == i
  {
    forall j: nat
      ensures KeyAt(data, j) <==> NeedleAt(data, j)
    {
      KeyIsNeedle(data, j);
    }
    assert i + 7 <= |data|;
    hide KeyAt, NeedleAt;
  }

  // ----- files without the key -----

  lemma {:induction false} TooShortPanics(data: bytes)
    requires |data| < 7
    ensures InfoRange(data) == NoHash(OutOfRange)
  {
  }

  // Nothing is refused for want of the key: the last byte is hashed.
  lemma {:induction false} WithoutKeyTheLastByteIsHashed(data: bytes)
    requires |data| >= 7 && forall j :: 0 <= j < |data| - 7 ==> !KeyAt(data, j)
    ensures InfoRange(data) == Range(|data| - 1, |data|)
  {
    var r := Search(data, 0);
    KeyIsNeedle(data, r);
    hide Search, KeyAt, NeedleAt;
    assert r == |data| - 7;
  }

  // ----- files that go wrong behind the key -----

  // What the scanner gets through: whole values, and brackets that open.
  datatype Part = Whole(v: Value) | OpenDict | OpenList

  ghost function PartText(p: Part): bytes {
    match p
    case Whole(v) => Encode(v)
    case OpenDict => ['d' as int]
    case OpenList => ['l' as int]
  }

  ghost function PartsText(ps: seq<Part>): bytes {
    if ps == [] then [] else PartsText(ps[..|ps| - 1]) + PartText(ps[|ps| - 1])
  }

  function Opens(ps: seq<Part>): nat {
    if ps == [] then 0 else Opens(ps[..|ps| - 1]) + if ps[|ps| - 1].Whole? then 0 else 1
  }

  // Every string is shorter than 32 bits allow.
  ghost predicate Readable(ps: seq<Part>) {
    forall p :: p in ps && p.Whole? ==> Short(p.v, 0x8000_0000)
  }

  lemma {:induction false} PartIsRead(data: bytes, i: nat, p: Part, count: nat)
    requires At(data, i, PartText(p)) && i + |PartText(p)| < |data| && count > 0
    requires p.Whole? ==> Short(p.v, 0x8000_0000)
    ensures Scan(data, i, count) == Scan(data, i + |PartText(p)|, count + if p.Whole? then 0 else 1)
  {
    hide Scan, Encode, Short;
    if p.Whole? {
      ScanEncoded(data, i, p.v, count);
    } else {
      AtFirst(data, i, PartText(p));
      ScanOpen(data, i, count);
    }
  }

  lemma {:induction false} PartsAreRead(data: bytes, i: nat, ps: seq<Part>, count: nat)
    requires At(data, i, PartsText(ps)) && i + |PartsText(ps)| < |data| && count > 0 && Readable(ps)
    ensures Scan(data, i, count) == Scan(data, i + |PartsText(ps)|, count + Opens(ps))
  {
    hide Scan, At, PartText, Short;
    if ps != [] {
      var before, last := ps[..|ps| - 1], ps[|ps| - 1];
      AtSplit(data, i, PartsText(before), PartText(last));
      PartsAreRead(data, i, before, count);
      PartIsRead(data, i + |PartsText(before)|, last, count + Opens(before));
    }
  }

  // The key stands at i, the parts behind it, and the rest behind them.
  ghost predicate Stands(data: bytes, i: nat, ps: seq<Part>, rest: bytes) {
    FirstKeyAt(data, i) && Readable(ps) && data[i + 7..] == PartsText(ps) + rest
  }

  // The rest decides.
  lemma {:induction false} RestDecides(data: bytes, i: nat, ps: seq<Part>, rest: bytes) returns (at: nat)
    requires Stands(data, i, ps, rest) && rest != []
    ensures at + |rest| == |data| && data[at..] == rest
    ensures InfoRange(data) == var r := Scan(data, at, 1 + Opens(ps)); if r.End? then Range(i + 6, r.at) else NoHash(r)
  {
    hide *;
    StandsParts(data, i, ps, rest);
    FirstKeyIsFound(data, i);
    RangeIs(data, i);
    PartsAreRead(data, i + 7, ps, 1);
    at := i + 7 + |PartsText(ps)|;
  }

  lemma {:induction false} StandsParts(data: bytes, i: nat, ps: seq<Part>, rest: bytes)
    requires Stands(data, i, ps, rest)
    ensures FirstKeyAt(data, i) && Readable(ps) && At(data, i + 7, PartsText(ps))
    ensures var at := i + 7 + |PartsText(ps)|; at + |rest| == |data| && data[at..] == rest
  {
    hide Readable, PartsText;
    var t := PartsText(ps);
    assert data[i + 7..i + 7 + |t|] == data[i + 7..][..|t|] && data[i + 7 + |t|..] == data[i + 7..][|t|..];
  }

  lemma {:induction false} RangeIs(data: bytes, i: nat)
    requires |data| >= 7 && Search(data, 0) == i
    ensures InfoRange(data) == var r := Scan(data, i + 7, 1); if r.End? then Range(i + 6, r.at) else NoHash(r)
  {
    hide Scan, Search;
  }

  // The end of the info dictionary ends the range, whatever follows.
  lemma {:induction false} ClosingByteEnds(data: bytes, i: nat, ps: seq<Part>, rest: bytes)
    requires Stands(data, i, ps, rest) && rest != [] && rest[0] == 'e' as int && Opens(ps) == 0
    ensures InfoRange(data) == Range(i + 6, |data| - |rest| + 1)
  {
    hide Stands, Scan;
    var at := RestDecides(data, i, ps, rest);
    assert data[at..][0] == data[at];
    ScanClose(data, at, 0);
    ScanNone(data, at + 1);
  }

  predicate Known(b: byte) {
    '0' as int <= b <= '9' as int || b == 'i' as int || b == 'd' as int || b == 'l' as int || b == 'e' as int
  }

  // The loop never gets past a byte that starts nothing.
  lemma {:induction false} JunkIsNeverPassed(data: bytes, i: nat, ps: seq<Part>, rest: bytes)
    requires Stands(data, i, ps, rest) && rest != [] && !Known(rest[0])
    ensures InfoRange(data) == NoHash(Stuck)
  {
    hide Stands;
    var at := RestDecides(data, i, ps, rest);
    assert data[at..][0] == data[at];
    ScanJunk(data, at, 1 + Opens(ps));
    hide Scan;
  }

  lemma {:induction false} ScanJunk(data: bytes, i: nat, count: nat)
    requires i < |data| && !Known(data[i]) && count > 0
    ensures Scan(data, i, count) == Stuck
  {
  }

  // Nor past a number that no colon follows.
  lemma {:induction false} NumberWithoutColon(data: bytes, i: nat, ps: seq<Part>, t: bytes, c: byte, more: bytes)
    requires Stands(data, i, ps, t + [c] + more) && t != [] && AllDigits(t) && !IsDigit(c) && c != ':' as int
    ensures InfoRange(data) == NoHash(Stuck)
  {
    hide Stands, IsDigit, AllDigits;
    var rest := t + [c] + more;
    var at := RestDecides(data, i, ps, rest);
    assert rest == t + ([c] + more);
    DigitsThere(data, at, t, [c] + more);
    ScanNumber(data, at, |t|, 1 + Opens(ps));
    hide Scan;
  }

  lemma {:induction false} DigitsThere(data: bytes, at: nat, t: bytes, more: bytes)
    requires at <= |data| && data[at..] == t + more && t != [] && AllDigits(t) && (more != [] ==> !IsDigit(more[0]))
    ensures at < |data| && IsDigit(data[at]) && SkipDigits(data, at + 1) == at + |t| <= |data|
    ensures data[at..at + |t|] == t && (more != [] ==> at + |t| < |data| && data[at + |t|] == more[0])
  {
    hide IsDigit;
    assert forall j :: at <= j < |data| ==> data[j] == data[at..][j - at];
    assert forall j :: at <= j < at + |t| ==> data[j] == t[j - at];
    if more != [] {
      assert data[at + |t|] == more[0];
    }
    var k := SkipDigits(data, at + 1);
    hide SkipDigits;
    assert k == at + |t|;
    assert data[at..at + |t|] == t;
  }

  lemma {:induction false} ScanNumber(data: bytes, at: nat, n: nat, count: nat)
    requires at < |data| && IsDigit(data[at]) && SkipDigits(data, at + 1) == at + n <= |data| && count > 0
    ensures at + n == |data| ==> Scan(data, at, count) == OutOfRange
    ensures at + n < |data| && data[at + n] != COLON ==> Scan(data, at, count) == Stuck
  {
    hide SkipDigits, ParseInt, Find;
  }

  lemma {:induction false} NumberRunsOut(data: bytes, i: nat, ps: seq<Part>, t: bytes)
    requires Stands(data, i, ps, t) && t != [] && AllDigits(t)
    ensures InfoRange(data) == NoHash(OutOfRange)
  {
    hide Stands;
    var at := RestDecides(data, i, ps, t);
    assert t + [] == t;
    DigitsThere(data, at, t, []);
    ScanNumber(data, at, |t|, 1 + Opens(ps));
    hide Scan;
  }

  lemma {:induction false} IntegerRunsOut(data: bytes, i: nat, ps: seq<Part>, t: bytes)
    requires Stands(data, i, ps, ['i' as int] + t) && 'e' as int !in t
    ensures InfoRange(data) == NoHash(OutOfRange)
  {
    hide Stands;
    var rest := ['i' as int] + t;
    var at := RestDecides(data, i, ps, rest);
    assert data[at..][0] == data[at];
    forall j | at <= j < |data|
      ensures data[j] != LOWER_E
    {
      assert data[at..][j - at] == data[j] && (j > at ==> rest[j - at] == t[j - at - 1]);
    }
    ScanEndless(data, at, 1 + Opens(ps));
    hide Scan;
  }

  lemma {:induction false} ScanEndless(data: bytes, at: nat, count: nat)
    requires at < |data| && data[at] == LOWER_I && count > 0 && forall j :: at <= j < |data| ==> data[j] != LOWER_E
    ensures Scan(data, at, count) == OutOfRange
  {
    assert SkipString(data, at) == SkipTo(at);
    var e := Find(data, at, LOWER_E);
    hide SkipString, Find;
    assert e == |data|;
  }

  // A string that reaches the end of the file runs over it, and a length of more than
  // 32 bits is the one error that is returned.
  lemma {:induction false} StringRunsOut(data: bytes, i: nat, ps: seq<Part>, h: bytes, more: bytes)
    requires Stands(data, i, ps, h + [':' as int] + more) && h != [] && AllDigits(h) && |more| <= DecimalValue(h)
    ensures InfoRange(data) == NoHash(if DecimalValue(h) < 0x8000_0000 then OutOfRange else BadLength)
  {
    hide Stands, DecimalValue, AllDigits;
    var rest := h + [':' as int] + more;
    var at := RestDecides(data, i, ps, rest);
    assert rest == h + ([':' as int] + more) && !IsDigit(':' as int);
    DigitsThere(data, at, h, [':' as int] + more);
    HeaderIsParsed(h);
    ScanString(data, at, h, 1 + Opens(ps));
    hide Scan;
  }

  lemma {:induction false} HeaderIsParsed(h: bytes)
    requires h != [] && AllDigits(h)
    ensures DecimalValue(h) >= 0
    ensures ParseInt(h, INT32_LIMIT) == if DecimalValue(h) < INT32_LIMIT then Some(DecimalValue(h)) else None
  {
    DigitsAre(h);
    hide DecimalValue;
    assert IsDigit(h[0]);
  }

  lemma {:induction false} ScanString(data: bytes, at: nat, h: bytes, count: nat)
    requires at < |data| && IsDigit(data[at]) && SkipDigits(data, at + 1) == at + |h| < |data| && data[at..at + |h|] == h
    requires data[at + |h|] == COLON && count > 0 && DecimalValue(h) >= 0
    requires ParseInt(h, INT32_LIMIT) == if DecimalValue(h) < INT32_LIMIT then Some(DecimalValue(h)) else None
    requires at + |h| + 1 + DecimalValue(h) >= |data|
    ensures Scan(data, at, count) == if DecimalValue(h) < INT32_LIMIT then OutOfRange else BadLength
  {
    hide SkipDigits, ParseInt, DecimalValue, Find;
  }

  // Brackets that stay open are no error: everything to the end is hashed.
  lemma {:induction false} UnclosedIsHashedToTheEnd(data: bytes, i: nat, ps: seq<Part>, bracket: byte)
    requires Stands(data, i, ps, [bracket]) && (bracket == 'd' as int || bracket == 'l' as int)
    ensures InfoRange(data) == Range(i + 6, |data|)
  {
    hide Stands;
    var at := RestDecides(data, i, ps, [bracket]);
    assert data[at..][0] == data[at];
    ScanOpen(data, at, 1 + Opens(ps));
    assert Scan(data, |data|, 2 + Opens(ps)) == End(|data|);
    hide Scan;
  }
}
