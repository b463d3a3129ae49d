// Decoding undoes encoding.
module BencodeRoundTrip {
  import opened Common
  import opened BencodeSpec

  // data has s at position i.
  ghost predicate At(data: bytes, i: nat, s: bytes) {
    i + |s| <= |data| && data[i..i + |s|] == s
  }

  lemma {:induction false} AtSplit(data: bytes, i: nat, a: bytes, b: bytes)
    requires At(data, i, a + b)
    ensures At(data, i, a) && At(data, i + |a|, b)
  {
    assert data[i..i + |a|] == data[i..i + |a + b|][..|a|];
    assert data[i + |a|..i + |a| + |b|] == data[i..i + |a + b|][|a|..];
  }

  lemma {:induction false} AtFirst(data: bytes, i: nat, s: bytes)
    requires At(data, i, s) && s != []
    ensures i < |data| && data[i] == s[0]
  {
    assert data[i..i + |s|][0] == s[0];
  }

  lemma {:induction false} PrependPrepend(a: seq<Token>, b: seq<Token>, r: LexResult)
    ensures Prepend(a, Prepend(b, r)) == Prepend(a + b, r)
  {
    if r.Tokens? {
      assert a + (b + r.tokens) == a + b + r.tokens;
    }
  }

  // ----- the tokens of a value -----

  ghost function Toks(v: Value): (ts: seq<Token>)
    ensures |ts| >= 1
    decreases v, 1, 0
  {
    match v
    case Str(s) => [TString(s)]
    case Int(n) => [TInteger(IntText(n))]
    case List(items) => [TList] + ToksItems(v, |items|) + [TEndList]
    case Dict(entries) => [TDict] + ToksEntries(v, SortedKeys(entries.Keys)) + [TEndDict]
  }

  ghost function ToksItems(v: Value, k: nat): seq<Token>
    requires v.List? && k <= |v.items|
    decreases v, 0, k
  {
    if k == 0 then [] else ToksItems(v, k - 1) + Toks(v.items[k - 1])
  }

  ghost function ToksEntries(v: Value, keys: seq<bytes>): seq<Token>
    requires v.Dict? && forall k :: k in keys ==> k in v.entries
    decreases v, 0, |keys|
  {
    if keys == [] then []
    else
      var last := keys[|keys| - 1];
      ToksEntries(v, keys[..|keys| - 1]) + [TString(last)] + Toks(v.entries[last])
  }

  // ----- the tokenizer on an encoding -----

  lemma {:induction false} FindStops(data: bytes, i: nat, s: bytes, c: byte)
    requires At(data, i, s + [c]) && c !in s
    ensures Find(data, i, c) == i + |s|
    decreases |s|
  {
    AtSplit(data, i, s, [c]);
    assert data[i + |s|] == c by {
      AtFirst(data, i + |s|, [c]);
    }
    forall j | i <= j < i + |s|
      ensures data[j] != c
    {
      assert data[i..i + |s|][j - i] == s[j - i];
    }
  }

  lemma {:induction false} HeaderOfDecimal(s: bytes)
    requires AllDigits(s) && DecimalValue(s) < INT64_LIMIT
    ensures 0 <= HeaderLength(s) == DecimalValue(s)
  {
    if s != [] {
      var before, digit := s[..|s| - 1], s[|s| - 1] - ZERO;
      DigitsPositive(before);
      HeaderOfDecimal(before);
      var n := HeaderLength(before);
      assert IsDigit(s[|s| - 1]) && digit % 0x100 == digit;
      SmallStays(n * 10);
      SmallStays(n * 10 + digit);
      hide Wrap64, IsDigit, AllDigits;
    }
  }

  lemma {:induction false} SmallStays(x: int)
    requires 0 <= x < INT64_LIMIT
    ensures Wrap64(x) == x
  {
  }

  lemma {:induction false} DigitsPositive(s: bytes)
    requires AllDigits(s)
    ensures DecimalValue(s) >= 0
  {
    if s != [] {
      DigitsPositive(s[..|s| - 1]);
    }
  }

  lemma {:induction false} LexStr(data: bytes, i: nat, s: bytes, stack: seq<Container>)
    requires |s| < INT64_LIMIT && At(data, i, EncodeStr(s))
    ensures Lex(data, i, stack) == Prepend([TString(s)], Lex(data, i + |EncodeStr(s)|, stack))
  {
    hide Lex, Find, HeaderLength;
    var d := Decimal(|s|);
    AtSplit(data, i, d + [COLON], s);
    FindStops(data, i, d, COLON);
    AtSplit(data, i, d, [COLON]);
    AtFirst(data, i, d);
    DecimalRoundTrip(|s|);
    HeaderOfDecimal(d);
    assert data[i..i + |d|] == d && data[i + |d| + 1..i + |d| + 1 + |s|] == s && i + |d| + |s| < |data|;
    hide Decimal, At, HeaderLength;
    LexHeader(data, i, d, s, stack);
  }

  lemma {:induction false} LexHeader(data: bytes, i: nat, d: bytes, s: bytes, stack: seq<Container>)
    requires i < |data| && IsDigit(data[i]) && Find(data, i, COLON) == i + |d| && i + |d| + |s| < |data|
    requires data[i..i + |d|] == d && HeaderLength(d) == |s|
    requires data[i + |d| + 1..i + |d| + 1 + |s|] == s
    ensures Lex(data, i, stack) == Prepend([TString(s)], Lex(data, i + |d| + 1 + |s|, stack))
  {
    hide HeaderLength, Find;
    if |s| == 0 {
      assert s == [];
    }
  }

  lemma {:induction false} LexInt(data: bytes, i: nat, n: int, stack: seq<Container>)
    requires At(data, i, EncodeInt(n))
    ensures Lex(data, i, stack) == Prepend([TInteger(IntText(n))], Lex(data, i + |EncodeInt(n)|, stack))
  {
    hide Lex, Find, IntText;
    var t := IntText(n);
    assert EncodeInt(n) == [LOWER_I] + (t + [LOWER_E]);
    AtSplit(data, i, [LOWER_I], t + [LOWER_E]);
    AtFirst(data, i, [LOWER_I]);
    FindStops(data, i + 1, t, LOWER_E);
    AtSplit(data, i + 1, t, [LOWER_E]);
    assert data[i + 1..i + 1 + |t|] == t && i + 1 + |t| < |data|;
    hide At;
    LexIntText(data, i, t, stack);
  }

  lemma {:induction false} LexIntText(data: bytes, i: nat, t: bytes, stack: seq<Container>)
    requires i < |data| && data[i] == LOWER_I && i + 1 + |t| < |data|
    requires Find(data, i + 1, LOWER_E) == i + 1 + |t| && data[i + 1..i + 1 + |t|] == t
    ensures Lex(data, i, stack) == Prepend([TInteger(t)], Lex(data, i + |t| + 2, stack))
  {
    hide Find;
  }

  lemma {:induction false} LexScalar(data: bytes, i: nat, v: Value, stack: seq<Container>)
    requires WellFormed(v) && (v.Str? || v.Int?) && At(data, i, Encode(v))
    ensures Lex(data, i, stack) == Prepend(Toks(v), Lex(data, i + |Encode(v)|, stack))
  {
    hide Lex, EncodeStr, EncodeInt, At, Prepend, IntText;
    if v.Str? {
      LexStr(data, i, v.s, stack);
    } else {
      LexInt(data, i, v.n, stack);
    }
  }

  lemma {:induction false} LexEncoded(data: bytes, i: nat, v: Value, stack: seq<Container>)
    requires WellFormed(v) && At(data, i, Encode(v))
    ensures Lex(data, i, stack) == Prepend(Toks(v), Lex(data, i + |Encode(v)|, stack))
    decreases v, 1, 0
  {
    if v.List? {
      LexListAround(data, i, v, stack);
    } else if v.Dict? {
      LexDictAround(data, i, v, stack);
    } else {
      LexScalar(data, i, v, stack);
    }
  }

  lemma {:induction false} LexListAround(data: bytes, i: nat, v: Value, stack: seq<Container>)
    requires v.List? && WellFormed(v) && At(data, i, Encode(v))
    ensures Lex(data, i, stack) == Prepend(Toks(v), Lex(data, i + |Encode(v)|, stack))
    decreases v, 0, |v.items| + 1
  {
    hide Lex, At, WellFormed, EncodeItems, ToksItems, Prepend;
    var n := |v.items|;
    LexItems(data, i + 1, v, n, stack + [InList], i);
    LexWrapped(data, i, LOWER_L, EncodeItems(v, n), ToksItems(v, n), stack);
  }

  lemma {:induction false} LexDictAround(data: bytes, i: nat, v: Value, stack: seq<Container>)
    requires v.Dict? && WellFormed(v) && At(data, i, Encode(v))
    ensures Lex(data, i, stack) == Prepend(Toks(v), Lex(data, i + |Encode(v)|, stack))
    decreases v, 0, |SortedKeys(v.entries.Keys)| + 1
  {
    hide Lex, At, WellFormed, EncodeEntries, ToksEntries, Prepend, SortedKeys;
    var keys := SortedKeys(v.entries.Keys);
    LexEntries(data, i + 1, v, keys, stack + [InDict], i);
    LexWrapped(data, i, LOWER_D, EncodeEntries(v, keys), ToksEntries(v, keys), stack);
  }

  // The brackets around what is inside a container.
  lemma {:induction false} LexWrapped(data: bytes, i: nat, c: byte, inner: bytes, ts: seq<Token>, stack: seq<Container>)
    requires c == LOWER_L || c == LOWER_D
    requires At(data, i, [c] + inner + [LOWER_E])
    requires var inside := stack + [if c == LOWER_L then InList else InDict];
             Lex(data, i + 1, inside) == Prepend(ts, Lex(data, i + 1 + |inner|, inside))
    ensures Lex(data, i, stack)
         == Prepend([if c == LOWER_L then TList else TDict] + ts + [if c == LOWER_L then TEndList else TEndDict],
                    Lex(data, i + |[c] + inner + [LOWER_E]|, stack))
  {
    hide At, Prepend;
    var kind := if c == LOWER_L then InList else InDict;
    var open, close := if c == LOWER_L then TList else TDict, if c == LOWER_L then TEndList else TEndDict;
    var inside := stack + [kind];
    var e := i + 1 + |inner|;
    AtSplit(data, i, [c] + inner, [LOWER_E]);
    AtFirst(data, i, [c] + inner);
    AtFirst(data, e, [LOWER_E]);
    assert inside[..|inside| - 1] == stack;
    var rest := Lex(data, e + 1, stack);
    assert Lex(data, e, inside) == Prepend([close], rest);
    assert Lex(data, i, stack) == Prepend([open], Lex(data, i + 1, inside));
    hide Lex;
    PrependPrepend(ts, [close], rest);
    PrependPrepend([open], ts + [close], rest);
    assert [open] + (ts + [close]) == [open] + ts + [close];
  }

  lemma {:induction false} LexItems(data: bytes, i: nat, v: Value, k: nat, stack: seq<Container>, at: nat)
    requires v.List? && k <= |v.items| && WellFormed(v) && i == at + 1
    requires At(data, at, Encode(v))
    ensures At(data, i, EncodeItems(v, k))
    ensures Lex(data, i, stack) == Prepend(ToksItems(v, k), Lex(data, i + |EncodeItems(v, k)|, stack))
    decreases v, 0, k
  {
    hide *;
    ItemsAt(data, at, v, k);
    if k == 0 {
      NoItems(v);
      NoTokens(Lex(data, i, stack));
    } else {
      ItemWellFormed(v, k - 1);
      LexItems(data, i, v, k - 1, stack, at);
      LexItem(data, i, v, k, stack);
    }
  }

  lemma {:induction false} NoItems(v: Value)
    requires v.List?
    ensures EncodeItems(v, 0) == [] && ToksItems(v, 0) == []
  {
  }

  lemma {:induction false} ItemWellFormed(v: Value, k: nat)
    requires v.List? && WellFormed(v) && k < |v.items|
    ensures WellFormed(v.items[k])
  {
  }

  lemma {:induction false} LexItem(data: bytes, i: nat, v: Value, k: nat, stack: seq<Container>)
    requires v.List? && 0 < k <= |v.items| && WellFormed(v.items[k - 1])
    requires At(data, i, EncodeItems(v, k))
    requires Lex(data, i, stack) == Prepend(ToksItems(v, k - 1), Lex(data, i + |EncodeItems(v, k - 1)|, stack))
    ensures Lex(data, i, stack) == Prepend(ToksItems(v, k), Lex(data, i + |EncodeItems(v, k)|, stack))
    decreases v, 0, 0
  {
    hide Lex, Encode, Toks, At, WellFormed;
    var j := i + |EncodeItems(v, k - 1)|;
    AtSplit(data, i, EncodeItems(v, k - 1), Encode(v.items[k - 1]));
    LexEncoded(data, j, v.items[k - 1], stack);
    PrependPrepend(ToksItems(v, k - 1), Toks(v.items[k - 1]), Lex(data, j + |Encode(v.items[k - 1])|, stack));
  }

  lemma {:induction false} NoTokens(r: LexResult)
    ensures Prepend([], r) == r
  {
  }

  // The first k items of an encoded list lie behind its bracket.
  lemma {:induction false} ItemsAt(data: bytes, at: nat, v: Value, k: nat)
    requires v.List? && k <= |v.items| && At(data, at, Encode(v))
    ensures At(data, at + 1, EncodeItems(v, k))
    decreases |v.items| - k
  {
    if k == |v.items| {
      AtSplit(data, at, [LOWER_L] + EncodeItems(v, k), [LOWER_E]);
      AtSplit(data, at, [LOWER_L], EncodeItems(v, k));
    } else {
      ItemsAt(data, at, v, k + 1);
      AtSplit(data, at + 1, EncodeItems(v, k), Encode(v.items[k]));
    }
  }

  lemma {:induction false} LexEntries(data: bytes, i: nat, v: Value, keys: seq<bytes>, stack: seq<Container>, at: nat)
    requires v.Dict? && WellFormed(v) && i == at + 1
    requires At(data, at, Encode(v)) && keys <= SortedKeys(v.entries.Keys)
    ensures forall k :: k in keys ==> k in v.entries
    ensures At(data, i, EncodeEntries(v, keys))
    ensures Lex(data, i, stack) == Prepend(ToksEntries(v, keys), Lex(data, i + |EncodeEntries(v, keys)|, stack))
    decreases v, 0, |keys|
  {
    hide *;
    EntriesAt(data, at, v, keys);
    if keys == [] {
      NoEntries(v);
      NoTokens(Lex(data, i, stack));
    } else {
      EntryWellFormed(v, keys[|keys| - 1]);
      LexEntries(data, i, v, keys[..|keys| - 1], stack, at);
      LexEntry(data, i, v, keys, stack);
    }
  }

  lemma {:induction false} NoEntries(v: Value)
    requires v.Dict?
    ensures EncodeEntries(v, []) == [] && ToksEntries(v, []) == []
  {
  }

  lemma {:induction false} EntryWellFormed(v: Value, k: bytes)
    requires v.Dict? && WellFormed(v) && k in v.entries
    ensures |k| < INT64_LIMIT && WellFormed(v.entries[k])
  {
  }

  lemma {:induction false} LexEntry(data: bytes, i: nat, v: Value, keys: seq<bytes>, stack: seq<Container>)
    requires v.Dict? && keys != [] && forall k :: k in keys ==> k in v.entries
    requires At(data, i, EncodeEntries(v, keys))
    requires |keys[|keys| - 1]| < INT64_LIMIT && WellFormed(v.entries[keys[|keys| - 1]])
    requires var before := keys[..|keys| - 1];
             Lex(data, i, stack) == Prepend(ToksEntries(v, before), Lex(data, i + |EncodeEntries(v, before)|, stack))
    ensures Lex(data, i, stack) == Prepend(ToksEntries(v, keys), Lex(data, i + |EncodeEntries(v, keys)|, stack))
    decreases v, 0, 0
  {
    hide Lex, Encode, Toks, At, WellFormed, EncodeStr;
    var before, last := keys[..|keys| - 1], keys[|keys| - 1];
    var j := i + |EncodeEntries(v, before)|;
    AtSplit(data, i, EncodeEntries(v, before) + EncodeStr(last), Encode(v.entries[last]));
    AtSplit(data, i, EncodeEntries(v, before), EncodeStr(last));
    LexStr(data, j, last, stack);
    LexEncoded(data, j + |EncodeStr(last)|, v.entries[last], stack);
    var rest := Lex(data, j + |EncodeStr(last)| + |Encode(v.entries[last])|, stack);
    PrependPrepend([TString(last)], Toks(v.entries[last]), rest);
    PrependPrepend(ToksEntries(v, before), [TString(last)] + Toks(v.entries[last]), rest);
    assert ToksEntries(v, before) + ([TString(last)] + Toks(v.entries[last])) == ToksEntries(v, keys);
  }

  lemma {:induction false} EntriesWhole(data: bytes, at: nat, v: Value)
    requires v.Dict? && At(data, at, Encode(v))
    ensures At(data, at + 1, EncodeEntries(v, SortedKeys(v.entries.Keys)))
  {
    hide At, SortedKeys, EncodeEntries;
    var inner := EncodeEntries(v, SortedKeys(v.entries.Keys));
    AtSplit(data, at, [LOWER_D] + inner, [LOWER_E]);
    AtSplit(data, at, [LOWER_D], inner);
  }

  lemma {:induction false} EntriesShorter(data: bytes, i: nat, v: Value, keys: seq<bytes>)
    requires v.Dict? && keys != [] && forall k :: k in keys ==> k in v.entries
    requires At(data, i, EncodeEntries(v, keys))
    ensures At(data, i, EncodeEntries(v, keys[..|keys| - 1]))
  {
    hide At, EncodeStr, Encode;
    var before, last := keys[..|keys| - 1], keys[|keys| - 1];
    AtSplit(data, i, EncodeEntries(v, before) + EncodeStr(last), Encode(v.entries[last]));
    AtSplit(data, i, EncodeEntries(v, before), EncodeStr(last));
  }

  lemma {:induction false} KeysAreEntries(v: Value, keys: seq<bytes>)
    requires v.Dict? && keys <= SortedKeys(v.entries.Keys)
    ensures forall k :: k in keys ==> k in v.entries
  {
    assert forall k :: k in keys ==> k in SortedKeys(v.entries.Keys);
  }

  // The first entries of an encoded dictionary lie behind its bracket.
  lemma {:induction false} EntriesAt(data: bytes, at: nat, v: Value, keys: seq<bytes>)
    requires v.Dict? && At(data, at, Encode(v)) && keys <= SortedKeys(v.entries.Keys)
    ensures forall k :: k in keys ==> k in v.entries
    ensures At(data, at + 1, EncodeEntries(v, keys))
    decreases |SortedKeys(v.entries.Keys)| - |keys|
  {
    hide *;
    var all := SortedKeys(v.entries.Keys);
    KeysAreEntries(v, keys);
    if |keys| == |all| {
      assert keys == all;
      EntriesWhole(data, at, v);
    } else {
      var more := all[..|keys| + 1];
      KeysAreEntries(v, more);
      EntriesAt(data, at, v, more);
      assert more[..|keys|] == keys;
      EntriesShorter(data, at + 1, v, more);
    }
  }

  // ----- nesting -----

  lemma {:induction false} NestAppend(stack: seq<Container>, a: seq<Token>, b: seq<Token>)
    ensures Nest(stack, a + b) == match Nest(stack, a) case None => None case Some(open) => Nest(open, b)
    decreases |b|
  {
    if b == [] {
      assert a + b == a;
    } else {
      NestAppend(stack, a, b[..|b| - 1]);
      assert (a + b)[..|a + b| - 1] == a + b[..|b| - 1];
    }
  }

  // The tokens of any input that is accepted are the start of a properly nested
  // word: every end matches the innermost open container.
  lemma {:induction false} LexNests(data: bytes, i: nat, stack: seq<Container>)
    requires Lex(data, i, stack).Tokens?
    ensures Nest(stack, Lex(data, i, stack).tokens).Some?
    decreases |data| - i
  {
    if i >= |data| {
    } else if data[i] == LOWER_D {
      LexNests(data, i + 1, stack + [InDict]);
      NestAppend(stack, [TDict], Lex(data, i + 1, stack + [InDict]).tokens);
      NestSingle(stack, TDict);
    } else if data[i] == LOWER_L {
      LexNests(data, i + 1, stack + [InList]);
      NestAppend(stack, [TList], Lex(data, i + 1, stack + [InList]).tokens);
      NestSingle(stack, TList);
    } else if data[i] == LOWER_E {
      if stack == [] {
        LexNests(data, i + 1, stack);
      } else {
        var t := if stack[|stack| - 1].InDict? then TEndDict else TEndList;
        LexNests(data, i + 1, stack[..|stack| - 1]);
        NestAppend(stack, [t], Lex(data, i + 1, stack[..|stack| - 1]).tokens);
        NestSingle(stack, t);
      }
    } else {
      var ts := Lex(data, i, stack).tokens;
      var next := LexAtom(data, i, stack);
      LexNests(data, next, stack);
      NestAppend(stack, [ts[0]], ts[1..]);
      NestSingle(stack, ts[0]);
      assert ts == [ts[0]] + ts[1..];
    }
  }

  lemma {:induction false} NestSingle(stack: seq<Container>, t: Token)
    ensures Nest(stack, [t]) == NestOne(stack, t)
  {
    assert [t][..0] == [];
  }

  lemma {:induction false} LexAtom(data: bytes, i: nat, stack: seq<Container>) returns (next: nat)
    requires i < |data| && data[i] !in {LOWER_D, LOWER_L, LOWER_E} && Lex(data, i, stack).Tokens?
    ensures i < next && Lex(data, next, stack).Tokens?
    ensures var ts := Lex(data, i, stack).tokens;
            && |ts| > 0 && (ts[0].TString? || ts[0].TInteger?) && ts[1..] == Lex(data, next, stack).tokens
  {
    if data[i] == LOWER_I {
      next := Find(data, i + 1, LOWER_E) + 1;
    } else {
      var k := Find(data, i, COLON);
      var n := HeaderLength(data[i..k]);
      next := if n <= 0 then k + 1 else k + n + 1;
    }
  }

  // ----- the end of a container -----

  function Kinds(open: seq<Container>, kind: Container): nat {
    if open == [] then 0
    else Kinds(open[..|open| - 1], kind) + if open[|open| - 1] == kind then 1 else 0
  }

  // The tokens open a container first and close it only with the last one.
  ghost predicate Enclosed(w: seq<Token>) {
    && |w| >= 2
    && Nest([], w) == Some([])
    && forall k :: 0 < k < |w| ==> Nest([], w[..k]).Some? && Nest([], w[..k]).value != []
  }

  lemma {:induction false} KindsPositive(open: seq<Container>, kind: Container)
    requires open != [] && open[0] == kind
    ensures Kinds(open, kind) >= 1
  {
    if |open| > 1 {
      KindsPositive(open[..|open| - 1], kind);
    } else {
      assert open[..0] == [];
    }
  }

  // An open container stays at the bottom until it is closed.
  lemma {:induction false} BottomStays(w: seq<Token>, k: nat)
    requires Enclosed(w) && 1 <= k < |w|
    ensures Nest([], w[..1]).Some? && Nest([], w[..1]).value != []
    ensures Nest([], w[..k]).Some? && Nest([], w[..k]).value != []
    ensures Nest([], w[..k]).value[0] == Nest([], w[..1]).value[0]
  {
    if k > 1 {
      BottomStays(w, k - 1);
      assert w[..k][..k - 1] == w[..k - 1];
    }
  }

  lemma {:induction false} FirstOpens(w: seq<Token>)
    requires Enclosed(w)
    ensures w[0] == TList || w[0] == TDict
    ensures Nest([], w[..1]) == Some([if w[0] == TList then InList else InDict])
  {
    assert w[..1] == [w[0]];
    NestSingle([], w[0]);
    assert [] + [InList] == [InList] && [] + [InDict] == [InDict];
  }

  lemma {:induction false} NestsOn(w: seq<Token>, k: nat)
    requires Enclosed(w) && k < |w|
    ensures Nest([], w[..k]).Some? && NestOne(Nest([], w[..k]).value, w[k]).Some?
    ensures Nest([], w[..k + 1]) == NestOne(Nest([], w[..k]).value, w[k])
  {
    assert w[..k + 1][..k] == w[..k];
    assert w[..k + 1] == w || Nest([], w[..k + 1]).Some?;
  }

  // Counting one kind of bracket only, the count is the number of containers of
  // that kind that are open.
  lemma {:induction false} ScanCounts(ts: seq<Token>, i: nat, w: seq<Token>, k: nat, count: int)
    requires Enclosed(w) && i + |w| < |ts| && ts[i..i + |w|] == w && 1 <= k <= |w|
    requires var kind := if w[0] == TList then InList else InDict;
             Nest([], w[..k]).Some? && count == Kinds(Nest([], w[..k]).value, kind)
    ensures ScanMatch(ts, i + k, w[0], if w[0] == TList then TEndList else TEndDict, count) == i + |w|
    decreases |w| - k
  {
    FirstOpens(w);
    var kind := if w[0] == TList then InList else InDict;
    if k == |w| {
      assert w[..k] == w;
    } else {
      BottomStays(w, k);
      NestsOn(w, k);
      var open := Nest([], w[..k]).value;
      assert ts[i + k] == w[k];
      hide Enclosed, Nest, Kinds, NestOne;
      KindsPositive(open, kind);
      KindsNext(open, w[k], kind);
      var next := if ts[i + k] == w[0] then count + 1
                  else if ts[i + k] == (if w[0] == TList then TEndList else TEndDict) then count - 1 else count;
      ScanCounts(ts, i, w, k + 1, next);
    }
  }

  lemma {:induction false} KindsNext(open: seq<Container>, t: Token, kind: Container)
    requires NestOne(open, t).Some?
    ensures Kinds(NestOne(open, t).value, kind)
         == if t == (if kind.InList? then TList else TDict) then Kinds(open, kind) + 1
            else if t == (if kind.InList? then TEndList else TEndDict) then Kinds(open, kind) - 1
            else Kinds(open, kind)
  {
    if t.TDict? {
      assert (open + [InDict])[..|open|] == open;
    } else if t.TList? {
      assert (open + [InList])[..|open|] == open;
    }
  }

  // On a properly nested container the loop stops at its true end.
  lemma {:induction false} MatchEndIsTheEnd(ts: seq<Token>, i: nat, w: seq<Token>)
    requires Enclosed(w) && i + |w| < |ts| && ts[i..i + |w|] == w
    ensures MatchEnd(ts, i) == i + |w| - 1
  {
    FirstOpens(w);
    assert ts[i] == w[0];
    var kind := if w[0] == TList then InList else InDict;
    assert [kind][..0] == [];
    assert Kinds([kind], kind) == 1;
    ScanCounts(ts, i, w, 1, 1);
  }

  // ----- parsing the tokens of a value -----

  // The tokens leave the open containers alone, and everything they open is closed.
  ghost predicate Keeps(open: seq<Container>, ts: seq<Token>) {
    && Nest(open, ts) == Some(open)
    && forall k :: 0 <= k <= |ts| ==> Nest(open, ts[..k]).Some? && open <= Nest(open, ts[..k]).value
  }

  lemma {:induction false} KeepsAppend(open: seq<Container>, a: seq<Token>, b: seq<Token>)
    requires Keeps(open, a) && Keeps(open, b)
    ensures Keeps(open, a + b)
  {
    NestAppend(open, a, b);
    hide Nest;
    forall k | 0 <= k <= |a + b|
      ensures Nest(open, (a + b)[..k]).Some? && open <= Nest(open, (a + b)[..k]).value
    {
      if k <= |a| {
        assert (a + b)[..k] == a[..k];
      } else {
        assert (a + b)[..k] == a + b[..k - |a|];
        NestAppend(open, a, b[..k - |a|]);
      }
    }
  }

  lemma {:induction false} KeepsSimple(open: seq<Container>, t: Token)
    requires t.TString? || t.TInteger?
    ensures Keeps(open, [t])
  {
    NestSingle(open, t);
    assert [t][..0] == [] && [t][..1] == [t];
  }

  ghost predicate Brackets(t: Token, kind: Container, u: Token) {
    (t == TList && kind == InList && u == TEndList) || (t == TDict && kind == InDict && u == TEndDict)
  }

  // Inside the brackets the new container stays open.
  lemma {:induction false} InsideBrackets(open: seq<Container>, t: Token, kind: Container, ts: seq<Token>, u: Token, k: nat)
    requires Brackets(t, kind, u) && Keeps(open + [kind], ts) && 0 < k <= |ts| + 1
    ensures var w := [t] + ts + [u];
            Nest(open, w[..k]).Some? && open + [kind] <= Nest(open, w[..k]).value
  {
    var w := [t] + ts + [u];
    assert w[..k] == [t] + ts[..k - 1];
    NestSingle(open, t);
    NestAppend(open, [t], ts[..k - 1]);
    hide Nest;
  }

  lemma {:induction false} WrapNests(open: seq<Container>, t: Token, kind: Container, ts: seq<Token>, u: Token)
    requires Brackets(t, kind, u) && Keeps(open + [kind], ts)
    ensures Nest(open, [t] + ts + [u]) == Some(open)
  {
    NestSingle(open, t);
    NestAppend(open, [t], ts);
    NestSingle(open + [kind], u);
    NestAppend(open, [t] + ts, [u]);
    assert Nest(open + [kind], ts) == Some(open + [kind]);
    hide Nest, Keeps;
    var inside := open + [kind];
    assert inside[..|inside| - 1] == open && inside[|inside| - 1] == kind;
    assert NestOne(inside, u) == Some(open);
  }

  lemma {:induction false} KeepsWrapped(open: seq<Container>, t: Token, kind: Container, ts: seq<Token>, u: Token)
    requires Brackets(t, kind, u) && Keeps(open + [kind], ts)
    ensures Keeps(open, [t] + ts + [u])
    ensures open == [] ==> Enclosed([t] + ts + [u])
  {
    var w := [t] + ts + [u];
    WrapNests(open, t, kind, ts, u);
    assert w[..0] == [] && w[..|w|] == w;
    assert Nest(open, []) == Some(open);
    hide Nest;
    forall k | 0 < k < |w|
      ensures Nest(open, w[..k]).Some? && open + [kind] <= Nest(open, w[..k]).value
    {
      InsideBrackets(open, t, kind, ts, u, k);
    }
  }

  lemma {:induction false} ToksNest(open: seq<Container>, v: Value)
    ensures Keeps(open, Toks(v))
    ensures open == [] && (v.List? || v.Dict?) ==> Enclosed(Toks(v))
    decreases v, 1, 0
  {
    hide Keeps, Enclosed;
    match v
    case Str(s) => KeepsSimple(open, TString(s));
    case Int(n) => KeepsSimple(open, TInteger(IntText(n)));
    case List(items) =>
      ToksItemsNest(open + [InList], v, |items|);
      KeepsWrapped(open, TList, InList, ToksItems(v, |items|), TEndList);
    case Dict(entries) =>
      var keys := SortedKeys(entries.Keys);
      ToksEntriesNest(open + [InDict], v, keys);
      KeepsWrapped(open, TDict, InDict, ToksEntries(v, keys), TEndDict);
  }

  lemma {:induction false} ToksItemsNest(open: seq<Container>, v: Value, k: nat)
    requires v.List? && k <= |v.items|
    ensures Keeps(open, ToksItems(v, k))
    decreases v, 0, k
  {
    if k > 0 {
      hide Keeps;
      ToksItemsNest(open, v, k - 1);
      ToksNest(open, v.items[k - 1]);
      KeepsAppend(open, ToksItems(v, k - 1), Toks(v.items[k - 1]));
    }
  }

  lemma {:induction false} ToksEntriesNest(open: seq<Container>, v: Value, keys: seq<bytes>)
    requires v.Dict? && forall k :: k in keys ==> k in v.entries
    ensures Keeps(open, ToksEntries(v, keys))
    decreases v, 0, |keys|
  {
    if keys != [] {
      hide Keeps;
      var before, last := keys[..|keys| - 1], keys[|keys| - 1];
      ToksEntriesNest(open, v, before);
      KeepsSimple(open, TString(last));
      KeepsAppend(open, ToksEntries(v, before), [TString(last)]);
      ToksNest(open, v.entries[last]);
      KeepsAppend(open, ToksEntries(v, before) + [TString(last)], Toks(v.entries[last]));
    }
  }

  // ts has w from position i on, and something after it.
  ghost predicate Has(ts: seq<Token>, i: nat, w: seq<Token>) {
    i + |w| < |ts| && ts[i..i + |w|] == w
  }

  lemma {:induction false} ParseAtToks(ts: seq<Token>, i: nat, v: Value)
    requires WellFormed(v) && 1 <= i && Has(ts, i, Toks(v))
    ensures i < |ts| - 1 && !ts[i].TEndList? && !ts[i].TEndDict?
    ensures ParseAt(ts, i) == Some((v, i + |Toks(v)| - 1))
    decreases v, 2, 0
  {
    if v.List? || v.Dict? {
      ParseContainer(ts, i, v);
    } else {
      hide ParseInt, IntText;
      assert ts[i..i + |Toks(v)|][0] == ts[i];
      if v.Int? {
        IntTextRoundTrip(v.n, INT64_LIMIT);
      }
    }
  }

  lemma {:induction false} ParseContainer(ts: seq<Token>, i: nat, v: Value)
    requires WellFormed(v) && (v.List? || v.Dict?) && 1 <= i && Has(ts, i, Toks(v))
    ensures i < |ts| - 1 && !ts[i].TEndList? && !ts[i].TEndDict?
    ensures ParseAt(ts, i) == Some((v, i + |Toks(v)| - 1))
    decreases v, 1, 1
  {
    hide *;
    HasFirst(ts, i, v);
    ToksNest([], v);
    MatchEndIsTheEnd(ts, i, Toks(v));
    if v.List? {
      ParseListToks(v);
    } else {
      ParseDictToks(v);
    }
    ParseAtContainer(ts, i, v, Toks(v));
  }

  lemma {:induction false} HasFirst(ts: seq<Token>, i: nat, v: Value)
    requires Has(ts, i, Toks(v)) && (v.List? || v.Dict?)
    ensures i < |ts| - 1 && ts[i] == (if v.List? then TList else TDict)
    ensures i + |Toks(v)| < |ts| && ts[i..i + |Toks(v)|] == Toks(v)
  {
    assert ts[i..i + |Toks(v)|][0] == ts[i];
  }

  lemma {:induction false} ParseAtContainer(ts: seq<Token>, i: nat, v: Value, w: seq<Token>)
    requires 1 <= i < |ts| - 1 && w != [] && i + |w| < |ts| && ts[i..i + |w|] == w && MatchEnd(ts, i) == i + |w| - 1
    requires (v.List? && ts[i] == TList && ParseList(w) == Some(v.items))
          || (v.Dict? && ts[i] == TDict && ParseDict(w) == Some(v.entries))
    ensures ParseAt(ts, i) == Some((v, i + |w| - 1))
  {
    hide MatchEnd, ParseList, ParseDict;
  }

  lemma {:induction false} ParseListToks(v: Value)
    requires v.List? && WellFormed(v)
    ensures ParseList(Toks(v)) == Some(v.items)
    decreases v, 1, 0
  {
    ListItemsFrom(v, 0);
    assert v.items[0..] == v.items;
    hide ListItems;
  }

  // Where the items from k on start among the tokens of a list.
  lemma {:induction false} HasInside(ts: seq<Token>, inner: seq<Token>, before: seq<Token>, item: seq<Token>)
    requires ts == [TList] + inner + [TEndList] && before + item <= inner
    ensures Has(ts, 1 + |before|, item)
  {
    assert inner == before + item + inner[|before| + |item|..];
    assert ts == ([TList] + before) + item + (inner[|before| + |item|..] + [TEndList]);
  }

  lemma {:induction false} ItemToks(v: Value, k: nat)
    requires v.List? && k < |v.items|
    ensures Has(Toks(v), 1 + |ToksItems(v, k)|, Toks(v.items[k]))
    decreases |v.items| - k
  {
    PrefixItems(v, k + 1, |v.items|);
    ToksOfList(v);
    assert ToksItems(v, k + 1) == ToksItems(v, k) + Toks(v.items[k]);
    hide Toks, ToksItems;
    HasInside(Toks(v), ToksItems(v, |v.items|), ToksItems(v, k), Toks(v.items[k]));
  }

  lemma {:induction false} ToksOfList(v: Value)
    requires v.List?
    ensures Toks(v) == [TList] + ToksItems(v, |v.items|) + [TEndList]
  {
  }

  lemma {:induction false} PrefixItems(v: Value, k: nat, n: nat)
    requires v.List? && k <= n <= |v.items|
    ensures ToksItems(v, k) <= ToksItems(v, n)
    decreases n
  {
    if k < n {
      PrefixItems(v, k, n - 1);
      hide Toks;
    }
  }

  lemma {:induction false} ListItemsFrom(v: Value, k: nat)
    requires v.List? && WellFormed(v) && k <= |v.items|
    ensures ListItems(Toks(v), 1 + |ToksItems(v, k)|) == Some(v.items[k..])
    decreases v, 0, |v.items| - k
  {
    hide Toks, ToksItems, ParseAt, Has, WellFormed, ListItems;
    var ts, i := Toks(v), 1 + |ToksItems(v, k)|;
    if k == |v.items| {
      LastItem(v);
      assert v.items[k..] == [];
    } else {
      ItemToks(v, k);
      ItemWellFormed(v, k);
      ParseAtToks(ts, i, v.items[k]);
      ListItemsFrom(v, k + 1);
      OneMoreItem(v, k);
      NextItem(ts, i, v.items[k], |Toks(v.items[k])|, v.items[k + 1..]);
      assert v.items[k..] == [v.items[k]] + v.items[k + 1..];
    }
  }

  lemma {:induction false} LastItem(v: Value)
    requires v.List?
    ensures ListItems(Toks(v), 1 + |ToksItems(v, |v.items|)|) == Some([])
  {
    ToksOfList(v);
    hide Toks, ToksItems;
  }

  lemma {:induction false} OneMoreItem(v: Value, k: nat)
    requires v.List? && k < |v.items|
    ensures |ToksItems(v, k + 1)| == |ToksItems(v, k)| + |Toks(v.items[k])|
  {
    hide Toks;
  }

  lemma {:induction false} NextItem(ts: seq<Token>, i: nat, v: Value, n: nat, rest: seq<Value>)
    requires 1 <= i < |ts| - 1 && !ts[i].TEndList? && !ts[i].TEndDict?
    requires n >= 1 && ParseAt(ts, i) == Some((v, i + n - 1)) && ListItems(ts, i + n) == Some(rest)
    ensures ListItems(ts, i) == Some([v] + rest)
  {
    hide ParseAt;
  }

  lemma {:induction false} ParseDictToks(v: Value)
    requires v.Dict? && WellFormed(v)
    ensures ParseDict(Toks(v)) == Some(v.entries)
    decreases v, 1, 0
  {
    assert SortedKeys(v.entries.Keys)[..0] == [];
    DictItemsFrom(v, []);
    assert Restrict(v, []) == map[];
    hide DictItems;
  }

  ghost function Restrict(v: Value, keys: seq<bytes>): map<bytes, Value>
    requires v.Dict?
  {
    map k | k in keys && k in v.entries :: v.entries[k]
  }

  lemma {:induction false} PrefixEntries(v: Value, keys: seq<bytes>, more: seq<bytes>)
    requires v.Dict? && keys <= more && forall k :: k in more ==> k in v.entries
    ensures forall k :: k in keys ==> k in v.entries
    ensures ToksEntries(v, keys) <= ToksEntries(v, more)
    decreases |more|
  {
    assert forall k :: k in keys ==> k in more;
    if keys != more {
      hide Toks;
      PrefixEntries(v, keys, more[..|more| - 1]);
    }
  }

  lemma {:induction false} ToksOfDict(v: Value)
    requires v.Dict?
    ensures Toks(v) == [TDict] + ToksEntries(v, SortedKeys(v.entries.Keys)) + [TEndDict]
  {
  }

  // A key and its value among the tokens of a dictionary.
  lemma {:induction false} EntryToks(v: Value, keys: seq<bytes>, more: seq<bytes>)
    requires v.Dict? && more <= SortedKeys(v.entries.Keys) && |more| == |keys| + 1 && keys == more[..|keys|]
    ensures forall k :: k in more ==> k in v.entries
    ensures forall k :: k in keys ==> k in v.entries
    ensures var i, last := 1 + |ToksEntries(v, keys)|, more[|keys|];
            && i < |Toks(v)| - 1 && Toks(v)[i] == TString(last) && Has(Toks(v), i + 1, Toks(v.entries[last]))
            && |ToksEntries(v, more)| == |ToksEntries(v, keys)| + 1 + |Toks(v.entries[last])|
  {
    hide *;
    var all := SortedKeys(v.entries.Keys);
    KeysAreEntries(v, all);
    PrefixEntries(v, more, all);
    PrefixEntries(v, keys, more);
    ToksOfDict(v);
    OneMoreEntry(v, keys, more);
    InnerEntry(Toks(v), ToksEntries(v, all), ToksEntries(v, more), |ToksEntries(v, keys)|,
               TString(more[|keys|]), Toks(v.entries[more[|keys|]]));
  }

  lemma {:induction false} OneMoreEntry(v: Value, keys: seq<bytes>, more: seq<bytes>)
    requires v.Dict? && |more| == |keys| + 1 && keys == more[..|keys|]
    requires (forall k :: k in more ==> k in v.entries) && forall k :: k in keys ==> k in v.entries
    ensures var last, p := more[|keys|], |ToksEntries(v, keys)|;
            && ToksEntries(v, more) == ToksEntries(v, keys) + [TString(last)] + Toks(v.entries[last])
            && p <= |ToksEntries(v, more)| && ToksEntries(v, more)[..p] == ToksEntries(v, keys)
  {
    hide Toks;
  }

  lemma {:induction false} InnerEntry(ts: seq<Token>, inner: seq<Token>, mine: seq<Token>, p: nat, t: Token, w: seq<Token>)
    requires ts == [TDict] + inner + [TEndDict] && mine <= inner && p <= |mine| && mine == mine[..p] + [t] + w
    ensures 1 + p < |ts| - 1 && ts[1 + p] == t && Has(ts, 2 + p, w)
  {
    assert inner[p] == mine[p] == t;
    assert inner[p + 1..p + 1 + |w|] == mine[p + 1..p + 1 + |w|] == w;
    assert ts[2 + p..2 + p + |w|] == inner[p + 1..p + 1 + |w|];
  }

  lemma {:induction false} DictItemsFrom(v: Value, keys: seq<bytes>)
    requires v.Dict? && WellFormed(v) && keys <= SortedKeys(v.entries.Keys)
    ensures forall k :: k in keys ==> k in v.entries
    ensures DictItems(Toks(v), 1 + |ToksEntries(v, keys)|, Restrict(v, keys)) == Some(v.entries)
    decreases v, 0, |SortedKeys(v.entries.Keys)| - |keys|
  {
    hide SortedKeys, Has, WellFormed, Toks, ToksEntries, DictItems, ParseAt;
    var all := SortedKeys(v.entries.Keys);
    KeysAreEntries(v, keys);
    if |keys| == |all| {
      assert keys == all;
      LastEntry(v);
    } else {
      var more := all[..|keys| + 1];
      var last := more[|keys|];
      EntryToks(v, keys, more);
      EntryWellFormed(v, last);
      ParseAtToks(Toks(v), 2 + |ToksEntries(v, keys)|, v.entries[last]);
      DictItemsFrom(v, more);
      assert Restrict(v, more) == Restrict(v, keys)[last := v.entries[last]];
      NextEntry(Toks(v), 1 + |ToksEntries(v, keys)|, Restrict(v, keys), last, v.entries[last], |Toks(v.entries[last])|);
    }
  }

  lemma {:induction false} LastEntry(v: Value)
    requires v.Dict?
    ensures DictItems(Toks(v), 1 + |ToksEntries(v, SortedKeys(v.entries.Keys))|,
                      Restrict(v, SortedKeys(v.entries.Keys))) == Some(v.entries)
  {
    hide Toks, ToksEntries, DictItems, Restrict;
    ToksOfDict(v);
    RestrictAll(v);
    DictItemsEnd(Toks(v), 1 + |ToksEntries(v, SortedKeys(v.entries.Keys))|, v.entries);
  }

  lemma {:induction false} RestrictAll(v: Value)
    requires v.Dict?
    ensures Restrict(v, SortedKeys(v.entries.Keys)) == v.entries
  {
  }

  lemma {:induction false} DictItemsEnd(ts: seq<Token>, i: nat, dict: map<bytes, Value>)
    requires 1 <= i && i >= |ts| - 1
    ensures DictItems(ts, i, dict) == Some(dict)
  {
    hide ParseAt;
  }

  lemma {:induction false} NextEntry(ts: seq<Token>, i: nat, dict: map<bytes, Value>, key: bytes, v: Value, n: nat)
    requires 1 <= i < |ts| - 2 && ts[i] == TString(key) && !ts[i + 1].TEndList? && !ts[i + 1].TEndDict?
    requires n >= 1 && ParseAt(ts, i + 1) == Some((v, i + n))
    ensures DictItems(ts, i, dict) == DictItems(ts, i + 1 + n, dict[key := v])
  {
    hide ParseAt;
  }

  // Parse undoes the encoding of every dictionary.
  lemma {:induction false} ParseUndoesEncode(v: Value)
    requires v.Dict? && WellFormed(v)
    ensures Parse(Encode(v)) == Parsed(v.entries)
  {
    hide Encode, Toks, Lex, ParseDict, WellFormed, At;
    var data := Encode(v);
    WholeAt(data);
    LexEncoded(data, 0, v, []);
    assert Toks(v) + [] == Toks(v);
    ParseDictToks(v);
  }

  lemma {:induction false} WholeAt(data: bytes)
    ensures At(data, 0, data) && Lex(data, |data|, []) == Tokens([])
  {
  }

  // So the encoding tells any two dictionaries apart.
  lemma {:induction false} EncodeIsInjective(v: Value, w: Value)
    requires v.Dict? && w.Dict? && WellFormed(v) && WellFormed(w) && Encode(v) == Encode(w)
    ensures v == w
  {
    ParseUndoesEncode(v);
    ParseUndoesEncode(w);
    hide *;
  }
}
