// Bencoding: values, their encoding, and what the tokenizer and the parser
// compute on any input.
module BencodeSpec {
  import opened Common

  const INT64_LIMIT: int := 0x8000_0000_0000_0000
  const INT32_LIMIT: int := 0x8000_0000

  datatype Value =
    | Str(s: bytes)
    | Int(n: int)
    | List(items: seq<Value>)
    | Dict(entries: map<bytes, Value>)

  // The values a program can hold: 64-bit integers, strings with an int length.
  ghost predicate WellFormed(v: Value) {
    match v
    case Str(s) => |s| < INT64_LIMIT
    case Int(n) => -INT64_LIMIT <= n < INT64_LIMIT
    case List(items) => forall i :: 0 <= i < |items| ==> WellFormed(items[i])
    case Dict(entries) => forall k :: k in entries ==> |k| < INT64_LIMIT && WellFormed(entries[k])
  }

  // Every string in the value is shorter than the limit.
  ghost predicate Short(v: Value, limit: int) {
    match v
    case Str(s) => |s| < limit
    case Int(n) => true
    case List(items) => forall i :: 0 <= i < |items| ==> Short(items[i], limit)
    case Dict(entries) => forall k :: k in entries ==> |k| < limit && Short(entries[k], limit)
  }

  const ZERO: byte := 48
  const COLON: byte := 58
  const PLUS: byte := 43
  const MINUS: byte := 45
  const LOWER_D: byte := 100
  const LOWER_E: byte := 101
  const LOWER_I: byte := 105
  const LOWER_L: byte := 108

  predicate IsDigit(b: byte) {
    ZERO <= b <= ZERO + 9
  }

  predicate AllDigits(s: bytes) {
    forall i :: 0 <= i < |s| ==> IsDigit(s[i])
  }

  // ----- decimal numbers -----

  function Decimal(n: nat): (r: bytes)
    ensures |r| >= 1 && AllDigits(r)
  {
    if n < 10 then [ZERO + n] else Decimal(n / 10) + [ZERO + n % 10]
  }

  function DecimalValue(s: bytes): int {
    if s == [] then 0 else DecimalValue(s[..|s| - 1]) * 10 + (s[|s| - 1] - ZERO)
  }

  lemma {:induction false} DecimalRoundTrip(n: nat)
    ensures DecimalValue(Decimal(n)) == n
  {
    if n >= 10 {
      DecimalRoundTrip(n / 10);
      assert Decimal(n)[..|Decimal(n)| - 1] == Decimal(n / 10);
    } else {
      assert Decimal(n)[..0] == [];
    }
  }

  // strconv.ParseInt in base 10, for integers below limit in magnitude.
  function ParseInt(s: bytes, limit: int): Option<int> {
    if s == [] then None
    else
      var digits := if s[0] == PLUS || s[0] == MINUS then s[1..] else s;
      if digits == [] || !AllDigits(digits) then None
      else
        var n := DecimalValue(digits);
        if s[0] == MINUS then (if n > limit then None else Some(-n))
        else if n >= limit then None else Some(n)
  }

  function IntText(n: int): (r: bytes)
    ensures |r| >= 1 && forall i :: 0 <= i < |r| ==> IsDigit(r[i]) || r[i] == MINUS
  {
    if n < 0 then [MINUS] + Decimal(-n) else Decimal(n)
  }

  lemma {:induction false} IntTextRoundTrip(n: int, limit: int)
    requires -limit <= n < limit
    ensures ParseInt(IntText(n), limit) == Some(n)
  {
    if n < 0 {
      DecimalRoundTrip(-n);
      assert IntText(n)[1..] == Decimal(-n);
    } else {
      DecimalRoundTrip(n);
      assert IsDigit(IntText(n)[0]);
    }
  }

  // ----- key order -----

  predicate Less(a: bytes, b: bytes) {
    b != [] && (a == [] || a[0] < b[0] || (a[0] == b[0] && Less(a[1..], b[1..])))
  }

  ghost predicate Sorted(keys: seq<bytes>) {
    forall i, j :: 0 <= i < j < |keys| ==> Less(keys[i], keys[j])
  }

  ghost predicate Lists(keys: seq<bytes>, s: set<bytes>) {
    Sorted(keys) && forall k :: k in s <==> k in keys
  }

  lemma {:induction false} LessIrreflexive(a: bytes)
    ensures !Less(a, a)
  {
    if a != [] {
      LessIrreflexive(a[1..]);
    }
  }

  lemma {:induction false} LessTotal(a: bytes, b: bytes)
    ensures a == b || Less(a, b) || Less(b, a)
    ensures !Less(a, a)
    ensures !(Less(a, b) && Less(b, a))
  {
    LessIrreflexive(a);
    if a != [] && b != [] {
      LessTotal(a[1..], b[1..]);
      if a[0] == b[0] && a[1..] == b[1..] {
        assert a == [a[0]] + a[1..] && b == [b[0]] + b[1..];
      }
    }
  }

  lemma {:induction false} LessTransitive(a: bytes, b: bytes, c: bytes)
    requires Less(a, b) && Less(b, c)
    ensures Less(a, c)
  {
    if a != [] && a[0] == b[0] == c[0] {
      LessTransitive(a[1..], b[1..], c[1..]);
    }
  }

  // There is one sorted listing of a set of keys.
  lemma {:induction false} SortedOnce(a: seq<bytes>, b: seq<bytes>, s: set<bytes>)
    requires Lists(a, s) && Lists(b, s)
    ensures a == b
    decreases |a|
  {
    ListsFirst(b, s);
    if a == [] {
    } else {
      assert a[0] in s;
      assert b != [];
      SameFirst(a, b, s);
      var rest := s - {a[0]};
      ListsRest(a, s);
      ListsRest(b, s);
      SortedOnce(a[1..], b[1..], rest);
      assert a == [a[0]] + a[1..] && b == [b[0]] + b[1..];
    }
  }

  lemma {:induction false} ListsFirst(b: seq<bytes>, s: set<bytes>)
    requires Lists(b, s)
    ensures b != [] ==> b[0] in s
  {
  }

  lemma {:induction false} SameFirst(a: seq<bytes>, b: seq<bytes>, s: set<bytes>)
    requires Lists(a, s) && Lists(b, s) && a != [] && b != []
    ensures a[0] == b[0]
  {
    assert a[0] in b && b[0] in a;
    var i :| 0 <= i < |b| && b[i] == a[0];
    var j :| 0 <= j < |a| && a[j] == b[0];
    LessTotal(a[0], b[0]);
  }

  lemma {:induction false} ListsRest(a: seq<bytes>, s: set<bytes>)
    requires Lists(a, s) && a != []
    ensures Lists(a[1..], s - {a[0]})
  {
    forall k | k in a[1..]
      ensures k in s && k != a[0]
    {
      var i :| 0 <= i < |a[1..]| && a[1..][i] == k;
      assert a[i + 1] == k;
      LessTotal(a[0], a[0]);
    }
    forall k | k in s && k != a[0]
      ensures k in a[1..]
    {
      var i :| 0 <= i < |a| && a[i] == k;
      assert a[1..][i - 1] == k;
    }
  }

  // Where a new key belongs in a sorted listing.
  function Slot(keys: seq<bytes>, k: bytes): (i: nat)
    ensures i <= |keys|
    ensures forall j :: 0 <= j < i ==> Less(keys[j], k)
    ensures i < |keys| ==> !Less(keys[i], k)
  {
    if keys == [] || !Less(keys[0], k) then 0 else 1 + Slot(keys[1..], k)
  }

  lemma {:induction false} InsertKeepsSorted(keys: seq<bytes>, s: set<bytes>, k: bytes, i: nat)
    requires Lists(keys, s) && k !in s && i <= |keys|
    requires forall j :: 0 <= j < i ==> Less(keys[j], k)
    requires i < |keys| ==> !Less(keys[i], k)
    ensures Lists(keys[..i] + [k] + keys[i..], s + {k})
  {
    var more := keys[..i] + [k] + keys[i..];
    forall j | i <= j < |keys|
      ensures Less(k, keys[j])
    {
      LessTotal(keys[i], k);
      assert keys[i] in s;
      if i < j {
        LessTransitive(k, keys[i], keys[j]);
      }
    }
    assert keys == keys[..i] + keys[i..];
    assert forall x :: x in more <==> x == k || x in keys;
    SortedAround(keys, k, i);
  }

  lemma {:induction false} SortedAround(keys: seq<bytes>, k: bytes, i: nat)
    requires Sorted(keys) && i <= |keys|
    requires forall j :: 0 <= j < i ==> Less(keys[j], k)
    requires forall j :: i <= j < |keys| ==> Less(k, keys[j])
    ensures Sorted(keys[..i] + [k] + keys[i..])
  {
    var more := keys[..i] + [k] + keys[i..];
    assert forall j :: 0 <= j < |more| ==> more[j] == if j < i then keys[j] else if j == i then k else keys[j - 1];
  }

  ghost function SortedKeys(s: set<bytes>): (keys: seq<bytes>)
    ensures Lists(keys, s)
  {
    if s == {} then []
    else
      var k :| k in s;
      var keys := SortedKeys(s - {k});
      var i := Slot(keys, k);
      InsertKeepsSorted(keys, s - {k}, k, i);
      assert s - {k} + {k} == s;
      keys[..i] + [k] + keys[i..]
  }

  // ----- encoding -----

  function EncodeStr(s: bytes): bytes {
    Decimal(|s|) + [COLON] + s
  }

  function EncodeInt(n: int): bytes {
    [LOWER_I] + IntText(n) + [LOWER_E]
  }

  ghost function Encode(v: Value): bytes
    decreases v, 1, 0
  {
    match v
    case Str(s) => EncodeStr(s)
    case Int(n) => EncodeInt(n)
    case List(items) => [LOWER_L] + EncodeItems(v, |items|) + [LOWER_E]
    case Dict(entries) => [LOWER_D] + EncodeEntries(v, SortedKeys(entries.Keys)) + [LOWER_E]
  }

  // The first k items of a list.
  ghost function EncodeItems(v: Value, k: nat): bytes
    requires v.List? && k <= |v.items|
    decreases v, 0, k
  {
    if k == 0 then [] else EncodeItems(v, k - 1) + Encode(v.items[k - 1])
  }

  // The entries of a dictionary for these keys.
  ghost function EncodeEntries(v: Value, keys: seq<bytes>): bytes
    requires v.Dict? && forall k :: k in keys ==> k in v.entries
    decreases v, 0, |keys|
  {
    if keys == [] then []
    else
      var last := keys[|keys| - 1];
      EncodeEntries(v, keys[..|keys| - 1]) + EncodeStr(last) + Encode(v.entries[last])
  }

  // ----- tokens -----

  datatype Token =
    | TString(value: bytes)
    | TInteger(text: bytes)
    | TList
    | TDict
    | TEndList
    | TEndDict

  datatype Container = InDict | InList

  datatype LexResult = Tokens(tokens: seq<Token>) | InvalidByte | LexPanics

  function Prepend(ts: seq<Token>, r: LexResult): LexResult {
    if r.Tokens? then Tokens(ts + r.tokens) else r
  }

  // The first position from i on that holds c, or the end.
  function Find(data: bytes, i: nat, c: byte): (k: nat)
    requires i <= |data|
    ensures i <= k <= |data|
    ensures forall j :: i <= j < k ==> data[j] != c
    ensures k < |data| ==> data[k] == c
    decreases |data| - i
  {
    if i == |data| || data[i] == c then i else Find(data, i + 1, c)
  }

  function Wrap64(x: int): int {
    (x + INT64_LIMIT) % (2 * INT64_LIMIT) - INT64_LIMIT
  }

  // The length the bytes before a colon stand for, in int arithmetic. Only the
  // first is checked to be a digit; byte subtraction wraps at 256.
  function HeaderLength(s: bytes): int {
    if s == [] then 0
    else Wrap64(Wrap64(HeaderLength(s[..|s| - 1]) * 10) + (s[|s| - 1] - ZERO) % 0x100)
  }

  // The tokens from position i on, inside the given containers.
  function Lex(data: bytes, i: nat, stack: seq<Container>): LexResult
    decreases |data| - i
  {
    if i >= |data| then Tokens([])
    else if data[i] == LOWER_D then Prepend([TDict], Lex(data, i + 1, stack + [InDict]))
    else if data[i] == LOWER_L then Prepend([TList], Lex(data, i + 1, stack + [InList]))
    else if data[i] == LOWER_I then
      var k := Find(data, i + 1, LOWER_E);
      if k == |data| then LexPanics else Prepend([TInteger(data[i + 1..k])], Lex(data, k + 1, stack))
    else if data[i] == LOWER_E then
      if stack == [] then Lex(data, i + 1, stack)
      else Prepend([if stack[|stack| - 1].InDict? then TEndDict else TEndList], Lex(data, i + 1, stack[..|stack| - 1]))
    else if !IsDigit(data[i]) then InvalidByte
    else
      var k := Find(data, i, COLON);
      var n := HeaderLength(data[i..k]);
      if n <= 0 then Prepend([TString([])], Lex(data, k + 1, stack))
      else if k + n >= |data| then LexPanics
      else Prepend([TString(data[k + 1..k + 1 + n])], Lex(data, k + n + 1, stack))
  }

  // ----- nesting -----

  // The containers that are open after the tokens; None when an end does not
  // match the innermost container.
  function Nest(stack: seq<Container>, ts: seq<Token>): Option<seq<Container>> {
    if ts == [] then Some(stack)
    else
      var before, last := Nest(stack, ts[..|ts| - 1]), ts[|ts| - 1];
      if before.None? then None
      else NestOne(before.value, last)
  }

  function NestOne(open: seq<Container>, t: Token): Option<seq<Container>> {
    if t.TDict? then Some(open + [InDict])
    else if t.TList? then Some(open + [InList])
    else if t.TEndDict? then
      if open != [] && open[|open| - 1].InDict? then Some(open[..|open| - 1]) else None
    else if t.TEndList? then
      if open != [] && open[|open| - 1].InList? then Some(open[..|open| - 1]) else None
    else Some(open)
  }

  // ----- parsing -----

  // The loop that looks for the end of a container: it counts one kind of
  // bracket only and never looks at the last token.
  function ScanMatch(ts: seq<Token>, k: nat, open: Token, close: Token, count: int): (r: nat)
    ensures r >= k && (k <= |ts| - 1 ==> r <= |ts| - 1)
    decreases |ts| - k
  {
    if k < |ts| - 1 && count > 0 then
      ScanMatch(ts, k + 1, open, close, if ts[k] == open then count + 1 else if ts[k] == close then count - 1 else count)
    else k
  }

  // Where the container that starts at i is taken to end.
  function MatchEnd(ts: seq<Token>, i: nat): (m: nat)
    requires i < |ts| - 1
    ensures i <= m < |ts| - 1
  {
    if ts[i].TList? then ScanMatch(ts, i + 1, TList, TEndList, 1) - 1
    else ScanMatch(ts, i + 1, TDict, TEndDict, 1) - 1
  }

  ghost function ParseList(ts: seq<Token>): Option<seq<Value>>
    requires ts != []
    decreases |ts|, |ts| + 1
  {
    if ts[0] != TList || ts[|ts| - 1] != TEndList then None else ListItems(ts, 1)
  }

  ghost function ParseDict(ts: seq<Token>): Option<map<bytes, Value>>
    requires ts != []
    decreases |ts|, |ts| + 1
  {
    if ts[0] != TDict || ts[|ts| - 1] != TEndDict then None else DictItems(ts, 1, map[])
  }

  // The value that starts at token i, and the position of its last token.
  ghost function ParseAt(ts: seq<Token>, i: nat): Option<(Value, nat)>
    requires 1 <= i < |ts| - 1 && !ts[i].TEndList? && !ts[i].TEndDict?
    ensures ParseAt(ts, i).Some? ==> i <= ParseAt(ts, i).value.1 < |ts| - 1
    decreases |ts|, 0
  {
    match ts[i]
    case TString(s) => Some((Str(s), i))
    case TInteger(text) =>
      var n := ParseInt(text, INT64_LIMIT);
      if n.None? then None else Some((Int(n.value), i))
    case TList =>
      var m := MatchEnd(ts, i);
      var items := ParseList(ts[i..m + 1]);
      if items.None? then None else Some((List(items.value), m))
    case TDict =>
      var m := MatchEnd(ts, i);
      var entries := ParseDict(ts[i..m + 1]);
      if entries.None? then None else Some((Dict(entries.value), m))
  }

  // Stray ends among the items of a list are skipped.
  ghost function ListItems(ts: seq<Token>, i: nat): Option<seq<Value>>
    requires i >= 1
    decreases |ts|, if |ts| >= i then |ts| - i + 1 else 0
  {
    if i >= |ts| - 1 then Some([])
    else if ts[i].TEndList? || ts[i].TEndDict? then ListItems(ts, i + 1)
    else
      var item := ParseAt(ts, i);
      if item.None? then None
      else
        var rest := ListItems(ts, item.value.1 + 1);
        if rest.None? then None else Some([item.value.0] + rest.value)
  }

  // A key with a stray end for a value is dropped; of equal keys the last wins.
  ghost function DictItems(ts: seq<Token>, i: nat, dict: map<bytes, Value>): Option<map<bytes, Value>>
    requires i >= 1
    decreases |ts|, if |ts| >= i then |ts| - i + 1 else 0
  {
    if i >= |ts| - 1 then Some(dict)
    else if !ts[i].TString? then None
    else if ts[i + 1].TEndList? || ts[i + 1].TEndDict? then DictItems(ts, i + 2, dict)
    else if i + 1 >= |ts| - 1 then None
    else
      var item := ParseAt(ts, i + 1);
      if item.None? then None
      else DictItems(ts, item.value.1 + 1, dict[ts[i].value := item.value.0])
  }

  datatype ParseResult = Parsed(entries: map<bytes, Value>) | ParseError | ParsePanics

  ghost function Parse(data: bytes): ParseResult {
    match Lex(data, 0, [])
    case InvalidByte => ParseError
    case LexPanics => ParsePanics
    case Tokens(ts) =>
      if ts == [] then ParsePanics
      else
        var r := ParseDict(ts);
        if r.None? then ParseError else Parsed(r.value)
  }
}
