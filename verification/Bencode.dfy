// The bencoding routines in the form the program has them: index loops that
// append to a list, a stack or a map, and mutual recursion over containers.
module Bencode {
  import opened Common
  import opened BencodeSpec
  import opened BencodeRoundTrip
  import opened InfoHashSpec

  // ----- tokenizer -----

  lemma {:induction false} NestMore(ts: seq<Token>, t: Token, open: seq<Container>)
    requires Nest([], ts) == Some(open)
    ensures Nest([], ts + [t]) == NestOne(open, t)
  {
    assert (ts + [t])[..|ts + [t]| - 1] == ts;
  }

  // What the loop knows: the tokens so far and those to come are all of them,
  // and the stack holds the containers that are open.
  ghost predicate Halfway(data: bytes, i: nat, tokens: seq<Token>, containers: seq<Container>) {
    && Prepend(tokens, Lex(data, i, containers)) == Lex(data, 0, [])
    && Nest([], tokens) == Some(containers)
  }

  lemma {:induction false} OneToken(data: bytes, i: nat, tokens: seq<Token>, containers: seq<Container>,
                                    t: Token, next: nat, after: seq<Container>)
    requires Halfway(data, i, tokens, containers)
    requires Lex(data, i, containers) == Prepend([t], Lex(data, next, after))
    requires NestOne(containers, t) == Some(after)
    ensures Halfway(data, next, tokens + [t], after)
  {
    hide Lex, Nest, NestOne;
    PrependPrepend(tokens, [t], Lex(data, next, after));
    NestMore(tokens, t, containers);
  }

  lemma {:induction false} Fails(data: bytes, i: nat, tokens: seq<Token>, containers: seq<Container>)
    requires Halfway(data, i, tokens, containers) && !Lex(data, i, containers).Tokens?
    ensures Lex(data, i, containers) == Lex(data, 0, [])
  {
    hide Lex, Nest;
  }

  lemma {:induction false} Done(data: bytes, i: nat, tokens: seq<Token>, containers: seq<Container>)
    requires Halfway(data, i, tokens, containers) && i >= |data|
    ensures Lex(data, 0, []) == Tokens(tokens) && Nest([], tokens) == Some(containers)
  {
    hide Nest;
    assert Lex(data, i, containers) == Tokens([]);
    assert tokens + [] == tokens;
  }

  // The bytes up to the next 'e'.
  method ReadInteger(data: bytes, start: nat) returns (value: bytes, i: nat)
    requires start <= |data|
    ensures i == Find(data, start, LOWER_E) && value == data[start..i]
  {
    i, value := start, [];
    while i < |data| && data[i] != LOWER_E
      invariant start <= i <= |data| && value == data[start..i]
      invariant Find(data, i, LOWER_E) == Find(data, start, LOWER_E)
    {
      value := value + [data[i]];
      i := i + 1;
    }
  }

  // The length before the next colon, in int arithmetic.
  method ReadLength(data: bytes, start: nat) returns (stringLength: int, i: nat)
    requires start <= |data|
    ensures i == Find(data, start, COLON) && stringLength == HeaderLength(data[start..i])
  {
    i, stringLength := start, 0;
    while i < |data| && data[i] != COLON
      invariant start <= i <= |data| && stringLength == HeaderLength(data[start..i])
      invariant Find(data, i, COLON) == Find(data, start, COLON)
    {
      assert data[start..i + 1][..i - start] == data[start..i];
      stringLength := Wrap64(stringLength * 10);
      stringLength := Wrap64(stringLength + (data[i] - ZERO) % 0x100);
      i := i + 1;
    }
  }

  // The bytes behind position i; ok is false where the index runs out of range.
  method ReadBytes(data: bytes, colon: nat, stringLength: int) returns (ok: bool, value: bytes, i: nat)
    requires colon <= |data|
    ensures ok == (stringLength <= 0 || colon + stringLength < |data|)
    ensures ok && stringLength <= 0 ==> value == [] && i == colon
    ensures ok && stringLength > 0 ==> i == colon + stringLength && value == data[colon + 1..i + 1]
  {
    i, value := colon, [];
    var j := 0;
    while j < stringLength
      invariant 0 <= j && (stringLength > 0 ==> j <= stringLength) && i == colon + j
      invariant j > 0 ==> i < |data|
      invariant stringLength <= 0 ==> j == 0
      invariant |value| == j && forall n :: 0 <= n < j ==> value[n] == data[colon + 1 + n]
    {
      i := i + 1;
      if i >= |data| {
        return false, [], i;
      }
      value := value + [data[i]];
      j := j + 1;
    }
    return true, value, i;
  }

  // Tokenize: it computes Lex, and the tokens of a successful run are a prefix
  // of a properly nested word whose unmatched openers are on the stack.
  method Tokenize(data: bytes) returns (r: LexResult, ghost open: seq<Container>)
    ensures r == Lex(data, 0, [])
    ensures r.Tokens? ==> Nest([], r.tokens) == Some(open)
  {
    hide Lex, Nest, HeaderLength, Find;
    var curContainers: seq<Container> := [];
    var tokens: seq<Token> := [];
    var i := 0;
    Starts(data);
    while i < |data|
      invariant Halfway(data, i, tokens, curContainers)
      decreases |data| - i
    {
      ghost var was, before, containers := i, tokens, curContainers;
      if data[i] == LOWER_D {
        OpenStep(data, i, curContainers);
        tokens := tokens + [TDict];
        curContainers := curContainers + [InDict];
        i := i + 1;
        OneToken(data, was, before, containers, TDict, i, curContainers);
      } else if data[i] == LOWER_L {
        OpenStep(data, i, curContainers);
        tokens := tokens + [TList];
        curContainers := curContainers + [InList];
        i := i + 1;
        OneToken(data, was, before, containers, TList, i, curContainers);
      } else if data[i] == LOWER_I {
        IntStep(data, i, curContainers);
        var value, k := ReadInteger(data, i + 1);
        if k == |data| {
          Fails(data, was, before, containers);
          return LexPanics, [];
        }
        tokens := tokens + [TInteger(value)];
        i := k + 1;
        OneToken(data, was, before, containers, TInteger(value), i, curContainers);
      } else if data[i] == LOWER_E {
        CloseStep(data, i, curContainers);
        if |curContainers| > 0 && curContainers[|curContainers| - 1] == InDict {
          tokens := tokens + [TEndDict];
          curContainers := curContainers[..|curContainers| - 1];
          i := i + 1;
          OneToken(data, was, before, containers, TEndDict, i, curContainers);
        } else if |curContainers| > 0 && curContainers[|curContainers| - 1] == InList {
          tokens := tokens + [TEndList];
          curContainers := curContainers[..|curContainers| - 1];
          i := i + 1;
          OneToken(data, was, before, containers, TEndList, i, curContainers);
        } else {
          i := i + 1;
        }
      } else {
        StringStep(data, i, curContainers);
        if data[i] < ZERO || data[i] > ZERO + 9 {
          Fails(data, was, before, containers);
          return InvalidByte, [];
        }
        var stringLength, k := ReadLength(data, i);
        var ok, value, end := ReadBytes(data, k, stringLength);
        if !ok {
          Fails(data, was, before, containers);
          return LexPanics, [];
        }
        tokens := tokens + [TString(value)];
        i := end + 1;
        OneToken(data, was, before, containers, TString(value), i, curContainers);
      }
    }
    Done(data, i, tokens, curContainers);
    return Tokens(tokens), curContainers;
  }

  lemma {:induction false} Starts(data: bytes)
    ensures Halfway(data, 0, [], [])
  {
    hide Lex;
    var r := Lex(data, 0, []);
    if r.Tokens? {
      assert [] + r.tokens == r.tokens;
    }
  }

  lemma {:induction false} OpenStep(data: bytes, i: nat, stack: seq<Container>)
    requires i < |data|
    ensures data[i] == LOWER_D ==> Lex(data, i, stack) == Prepend([TDict], Lex(data, i + 1, stack + [InDict]))
    ensures data[i] == LOWER_L ==> Lex(data, i, stack) == Prepend([TList], Lex(data, i + 1, stack + [InList]))
  {
    hide Find, HeaderLength;
  }

  lemma {:induction false} IntStep(data: bytes, i: nat, stack: seq<Container>)
    requires i < |data| && data[i] == LOWER_I
    ensures var k := Find(data, i + 1, LOWER_E);
            Lex(data, i, stack)
              == if k == |data| then LexPanics else Prepend([TInteger(data[i + 1..k])], Lex(data, k + 1, stack))
  {
    hide Find, HeaderLength;
  }

  lemma {:induction false} CloseStep(data: bytes, i: nat, stack: seq<Container>)
    requires i < |data| && data[i] == LOWER_E
    ensures stack == [] ==> Lex(data, i, stack) == Lex(data, i + 1, stack)
    ensures stack != [] && stack[|stack| - 1].InDict? ==>
              Lex(data, i, stack) == Prepend([TEndDict], Lex(data, i + 1, stack[..|stack| - 1]))
    ensures stack != [] && stack[|stack| - 1].InList? ==>
              Lex(data, i, stack) == Prepend([TEndList], Lex(data, i + 1, stack[..|stack| - 1]))
  {
    hide Find, HeaderLength;
  }

  lemma {:induction false} StringStep(data: bytes, i: nat, stack: seq<Container>)
    requires i < |data| && data[i] !in {LOWER_D, LOWER_L, LOWER_I, LOWER_E}
    ensures var k := Find(data, i, COLON);
            var n := HeaderLength(data[i..k]);
            Lex(data, i, stack)
              == if !IsDigit(data[i]) then InvalidByte
                 else if n <= 0 then Prepend([TString([])], Lex(data, k + 1, stack))
                 else if k + n >= |data| then LexPanics
                 else Prepend([TString(data[k + 1..k + 1 + n])], Lex(data, k + n + 1, stack))
  {
    hide Find, HeaderLength;
  }

  // ----- parser -----

  method ParseInteger(token: Token) returns (r: Option<int>)
    requires token.TInteger?
    ensures r == ParseInt(token.text, INT64_LIMIT)
  {
    r := ParseInt(token.text, INT64_LIMIT);
  }

  // The inner loop: behind an opening token, count one kind of bracket.
  method SkipContainer(tokens: seq<Token>, start: nat) returns (m: nat)
    requires start < |tokens| - 1 && (tokens[start].TList? || tokens[start].TDict?)
    ensures m == MatchEnd(tokens, start)
  {
    hide ScanMatch;
    var open, close := TList, TEndList;
    if tokens[start].TDict? {
      open, close := TDict, TEndDict;
    }
    var i, count := start + 1, 1;
    while i < |tokens| - 1 && count > 0
      invariant start < i <= |tokens| - 1 && count >= 0
      invariant ScanMatch(tokens, i, open, close, count) == ScanMatch(tokens, start + 1, open, close, 1)
    {
      CountStep(tokens, i, open, close, count);
      if tokens[i] == open {
        count := count + 1;
      } else if tokens[i] == close {
        count := count - 1;
      }
      i := i + 1;
    }
    CountStop(tokens, i, open, close, count);
    m := i - 1;
  }

  lemma {:induction false} CountStep(ts: seq<Token>, k: nat, open: Token, close: Token, count: int)
    requires k < |ts| - 1 && count > 0
    ensures ScanMatch(ts, k, open, close, count)
         == ScanMatch(ts, k + 1, open, close, if ts[k] == open then count + 1 else if ts[k] == close then count - 1 else count)
  {
  }

  lemma {:induction false} CountStop(ts: seq<Token>, k: nat, open: Token, close: Token, count: int)
    requires k >= |ts| - 1 || count <= 0
    ensures ScanMatch(ts, k, open, close, count) == k
  {
  }

  // A token that is the value of an item, or opens one.
  method ParseItem(tokens: seq<Token>, i: nat) returns (r: Option<(Value, nat)>)
    requires 1 <= i < |tokens| - 1 && !tokens[i].TEndList? && !tokens[i].TEndDict?
    ensures r == ParseAt(tokens, i)
    decreases |tokens|, 0
  {
    match tokens[i]
    case TString(s) => r := Some((Str(s), i));
    case TInteger(_) =>
      var n := ParseInteger(tokens[i]);
      r := if n.None? then None else Some((Int(n.value), i));
    case TList =>
      var m := SkipContainer(tokens, i);
      var items := ParseList(tokens[i..m + 1]);
      r := if items.None? then None else Some((List(items.value), m));
    case TDict =>
      var m := SkipContainer(tokens, i);
      var entries := ParseDict(tokens[i..m + 1]);
      r := if entries.None? then None else Some((Dict(entries.value), m));
  }

  method ParseList(tokens: seq<Token>) returns (r: Option<seq<Value>>)
    requires tokens != []
    ensures r == BencodeSpec.ParseList(tokens)
    decreases |tokens|, |tokens| + 1
  {
    if tokens[0] != TList || tokens[|tokens| - 1] != TEndList {
      return None;
    }
    hide ParseAt, ListItems;
    var list: seq<Value> := [];
    var i := 1;
    EmptyFirst(ListItems(tokens, 1));
    while i < |tokens| - 1
      invariant 1 <= i
      invariant Append(list, ListItems(tokens, i)) == ListItems(tokens, 1)
    {
      ItemStep(tokens, i);
      if !tokens[i].TEndList? && !tokens[i].TEndDict? {
        var item := ParseItem(tokens, i);
        if item.None? {
          return None;
        }
        AppendMore(list, item.value.0, ListItems(tokens, item.value.1 + 1));
        list := list + [item.value.0];
        i := item.value.1;
      }
      i := i + 1;
    }
    ItemsEnd(tokens, i, list);
    return Some(list);
  }

  ghost function Append(list: seq<Value>, rest: Option<seq<Value>>): Option<seq<Value>> {
    if rest.None? then None else Some(list + rest.value)
  }

  lemma {:induction false} EmptyFirst(rest: Option<seq<Value>>)
    ensures Append([], rest) == rest
  {
    if rest.Some? {
      assert [] + rest.value == rest.value;
    }
  }

  lemma {:induction false} AppendMore(list: seq<Value>, v: Value, rest: Option<seq<Value>>)
    ensures Append(list, Append([v], rest)) == Append(list + [v], rest)
  {
    if rest.Some? {
      assert list + ([v] + rest.value) == list + [v] + rest.value;
    }
  }

  lemma {:induction false} ItemStep(ts: seq<Token>, i: nat)
    requires 1 <= i < |ts| - 1
    ensures ts[i].TEndList? || ts[i].TEndDict? ==> ListItems(ts, i) == ListItems(ts, i + 1)
    ensures !ts[i].TEndList? && !ts[i].TEndDict? ==>
              ListItems(ts, i) == if ParseAt(ts, i).None? then None
                                  else Append([ParseAt(ts, i).value.0], ListItems(ts, ParseAt(ts, i).value.1 + 1))
  {
    hide ParseAt;
  }

  lemma {:induction false} ItemsEnd(ts: seq<Token>, i: nat, list: seq<Value>)
    requires i >= 1 && i >= |ts| - 1
    ensures Append(list, ListItems(ts, i)) == Some(list)
  {
    assert list + [] == list;
  }

  method ParseDict(tokens: seq<Token>) returns (r: Option<map<bytes, Value>>)
    requires tokens != []
    ensures r == BencodeSpec.ParseDict(tokens)
    decreases |tokens|, |tokens| + 1
  {
    if tokens[0] != TDict || tokens[|tokens| - 1] != TEndDict {
      return None;
    }
    hide ParseAt, DictItems;
    var dict: map<bytes, Value> := map[];
    var i := 1;
    while i < |tokens| - 1
      invariant 1 <= i
      invariant DictItems(tokens, i, dict) == DictItems(tokens, 1, map[])
    {
      EntryStep(tokens, i, dict);
      if !tokens[i].TString? {
        return None;
      }
      var key := tokens[i].value;
      i := i + 1;
      if !tokens[i].TEndList? && !tokens[i].TEndDict? {
        var item := ParseItem(tokens, i);
        if item.None? {
          return None;
        }
        dict := dict[key := item.value.0];
        i := item.value.1;
      }
      i := i + 1;
    }
    EntriesEnd(tokens, i, dict);
    return Some(dict);
  }

  lemma {:induction false} EntryStep(ts: seq<Token>, i: nat, dict: map<bytes, Value>)
    requires 1 <= i < |ts| - 1 && ts[|ts| - 1] == TEndDict
    ensures !ts[i].TString? ==> DictItems(ts, i, dict) == None
    ensures ts[i].TString? && (ts[i + 1].TEndList? || ts[i + 1].TEndDict?) ==>
              DictItems(ts, i, dict) == DictItems(ts, i + 2, dict)
    ensures ts[i].TString? && !ts[i + 1].TEndList? && !ts[i + 1].TEndDict? ==>
              && i + 1 < |ts| - 1
              && DictItems(ts, i, dict)
                 == if ParseAt(ts, i + 1).None? then None
                    else DictItems(ts, ParseAt(ts, i + 1).value.1 + 1, dict[ts[i].value := ParseAt(ts, i + 1).value.0])
  {
    hide ParseAt;
  }

  lemma {:induction false} EntriesEnd(ts: seq<Token>, i: nat, dict: map<bytes, Value>)
    requires i >= 1 && i >= |ts| - 1
    ensures DictItems(ts, i, dict) == Some(dict)
  {
  }

  method Parse(data: bytes) returns (r: ParseResult)
    ensures r == BencodeSpec.Parse(data)
  {
    hide Lex, BencodeSpec.ParseDict;
    var tokens, _ := Tokenize(data);
    if tokens.InvalidByte? {
      return ParseError;
    }
    if tokens.LexPanics? || tokens.tokens == [] {
      return ParsePanics;
    }
    var dict := ParseDict(tokens.tokens);
    return if dict.None? then ParseError else Parsed(dict.value);
  }

  // ----- encoder -----

  // The keys of a map, sorted.
  method SortKeys(dict: map<bytes, Value>) returns (keys: seq<bytes>)
    ensures keys == SortedKeys(dict.Keys)
  {
    hide SortedKeys, Sorted;
    keys := [];
    var left := dict.Keys;
    NothingListed();
    while left != {}
      invariant left <= dict.Keys && Lists(keys, dict.Keys - left)
      decreases |left|
    {
      var k :| k in left;
      var i := Slot(keys, k);
      InsertKeepsSorted(keys, dict.Keys - left, k, i);
      assert dict.Keys - left + {k} == dict.Keys - (left - {k});
      keys := keys[..i] + [k] + keys[i..];
      left := left - {k};
    }
    assert dict.Keys - left == dict.Keys;
    SortedOnce(keys, SortedKeys(dict.Keys), dict.Keys);
  }

  lemma {:induction false} NothingListed()
    ensures Lists([], {})
  {
  }

  method BEncodeValue(v: Value) returns (bString: bytes)
    ensures bString == Encode(v)
    decreases v, 1
  {
    hide Encode, EncodeStr, EncodeInt;
    match v
    case Str(s) =>
      EncodeLeaf(v);
      bString := EncodeStr(s);
    case Int(n) =>
      EncodeLeaf(v);
      bString := EncodeInt(n);
    case List(items) => bString := BEncodeList(items);
    case Dict(entries) => bString := BEncode(entries);
  }

  lemma {:induction false} EncodeLeaf(v: Value)
    ensures v.Str? ==> Encode(v) == EncodeStr(v.s)
    ensures v.Int? ==> Encode(v) == EncodeInt(v.n)
  {
    hide EncodeStr, EncodeInt;
  }

  method BEncodeList(list: seq<Value>) returns (bString: bytes)
    ensures bString == Encode(List(list))
    decreases List(list), 0
  {
    hide Encode, EncodeItems;
    ghost var v := List(list);
    bString := [LOWER_L];
    NoItems(v);
    for i := 0 to |list|
      invariant bString == [LOWER_L] + EncodeItems(v, i)
    {
      var item := BEncodeValue(list[i]);
      OneMoreItem(v, i);
      bString := bString + item;
    }
    bString := bString + [LOWER_E];
    WholeList(v);
  }

  lemma {:induction false} OneMoreItem(v: Value, i: nat)
    requires v.List? && i < |v.items|
    ensures EncodeItems(v, i + 1) == EncodeItems(v, i) + Encode(v.items[i])
  {
    hide Encode;
  }

  lemma {:induction false} WholeList(v: Value)
    requires v.List?
    ensures Encode(v) == [LOWER_L] + EncodeItems(v, |v.items|) + [LOWER_E]
  {
    hide EncodeItems;
  }

  method BEncode(dict: map<bytes, Value>) returns (bString: bytes)
    ensures bString == Encode(Dict(dict))
    decreases Dict(dict), 0
  {
    hide Encode, EncodeEntries, EncodeStr, SortedKeys;
    ghost var v := Dict(dict);
    bString := [LOWER_D];
    var keys := SortKeys(dict);
    assert forall k :: k in keys ==> k in dict;
    NoEntries(v);
    assert keys[..0] == [];
    for i := 0 to |keys|
      invariant forall k :: k in keys[..i] ==> k in dict
      invariant bString == [LOWER_D] + EncodeEntries(v, keys[..i])
    {
      assert keys[i] in keys;
      bString := bString + EncodeStr(keys[i]);
      var value := BEncodeValue(dict[keys[i]]);
      OneMoreEntry(v, keys, i);
      bString := bString + value;
    }
    bString := bString + [LOWER_E];
    assert keys[..|keys|] == keys;
    WholeDict(v);
  }

  lemma {:induction false} OneMoreEntry(v: Value, keys: seq<bytes>, i: nat)
    requires v.Dict? && i < |keys| && forall k :: k in keys ==> k in v.entries
    ensures (forall k :: k in keys[..i + 1] ==> k in v.entries) && (forall k :: k in keys[..i] ==> k in v.entries)
    ensures keys[i] in v.entries
    ensures EncodeEntries(v, keys[..i + 1])
         == EncodeEntries(v, keys[..i]) + EncodeStr(keys[i]) + Encode(v.entries[keys[i]])
  {
    hide Encode, EncodeStr;
    assert keys[..i + 1][..i] == keys[..i] && keys[..i + 1][i] == keys[i];
    assert keys[i] in keys;
  }

  lemma {:induction false} WholeDict(v: Value)
    requires v.Dict?
    ensures forall k :: k in SortedKeys(v.entries.Keys) ==> k in v.entries
    ensures Encode(v) == [LOWER_D] + EncodeEntries(v, SortedKeys(v.entries.Keys)) + [LOWER_E]
  {
    hide EncodeEntries, SortedKeys;
  }

  // ----- info hash -----

  datatype HashResult = Hashed(hash: bytes) | NotHashed(why: ScanResult)

  // The round of the counting loop that skips one string; a result other than
  // SkipTo is an error return or an index out of range.
  method SkipStringAt(data: bytes, i: nat) returns (s: Skip)
    requires i < |data|
    ensures s == SkipString(data, i)
  {
    if !IsDigit(data[i]) {
      return SkipTo(i);
    }
    var j := i + 1;
    while j < |data| && IsDigit(data[j])
      invariant i < j <= |data|
      invariant SkipDigits(data, j) == SkipDigits(data, i + 1)
    {
      j := j + 1;
    }
    if j == |data| {
      return SkipOut;
    }
    if data[j] != COLON {
      return SkipTo(i);
    }
    var n := ParseInt(data[i..j], INT32_LIMIT);
    if n.None? {
      return SkipBad;
    }
    return if n.value < 0 then SkipOut else SkipTo(j + n.value + 1);
  }

  // The counting loop. A round that neither moves nor changes the count would
  // repeat for ever; here it ends the loop with Stuck.
  method ScanInfo(data: bytes, start: nat) returns (r: ScanResult)
    requires start <= |data|
    ensures r == Scan(data, start, 1)
    ensures r.End? ==> start <= r.at <= |data|
  {
    hide SkipString, Scan, Find;
    var i, contCount := start, 1;
    while i < |data| && contCount > 0
      invariant contCount >= 0 && start <= i <= |data|
      invariant Scan(data, i, contCount) == Scan(data, start, 1)
      decreases |data| - i
    {
      var skip := SkipStringAt(data, i);
      ScanStep(data, i, contCount);
      if skip.SkipBad? {
        return BadLength;
      }
      if skip.SkipOut? || skip.at >= |data| {
        return OutOfRange;
      }
      var was := i;
      i := skip.at;
      if data[i] == LOWER_I {
        var _, e := ReadInteger(data, i);
        if e == |data| {
          return OutOfRange;
        }
        i := e + 1;
      } else if data[i] == LOWER_D || data[i] == LOWER_L {
        contCount := contCount + 1;
        i := i + 1;
      } else if data[i] == LOWER_E {
        contCount := contCount - 1;
        i := i + 1;
      } else if i == was {
        return Stuck;
      }
    }
    ScanStop(data, i, contCount);
    return End(i);
  }

  lemma {:induction false} ScanStep(data: bytes, i: nat, count: nat)
    requires i < |data| && count > 0
    ensures Scan(data, i, count) ==
              match SkipString(data, i)
              case SkipBad => BadLength
              case SkipOut => OutOfRange
              case SkipTo(k) =>
                if k >= |data| then OutOfRange
                else if data[k] == LOWER_I then
                  var e := Find(data, k, LOWER_E);
                  if e == |data| then OutOfRange else Scan(data, e + 1, count)
                else if data[k] == LOWER_D || data[k] == LOWER_L then Scan(data, k + 1, count + 1)
                else if data[k] == LOWER_E then Scan(data, k + 1, count - 1)
                else if k == i then Stuck
                else Scan(data, k, count)
  {
    hide SkipString, Find;
  }

  lemma {:induction false} ScanStop(data: bytes, i: nat, count: nat)
    requires i >= |data| || count == 0
    ensures Scan(data, i, count) == End(i)
  {
  }

  // GetInfoHash: the hash of the range InfoRange gives.
  method GetInfoHash(H: Hasher, data: bytes) returns (r: HashResult)
    ensures InfoRange(data).NoHash? ==> r == NotHashed(InfoRange(data).why)
    ensures InfoRange(data).Range? ==>
              && InfoRange(data).from <= InfoRange(data).to <= |data|
              && r == Hashed(H(data[InfoRange(data).from..InfoRange(data).to]))
    ensures forall b: bytes :: Hashes(data, b) ==> r == Hashed(H(b))
  {
    hide Scan;
    if |data| < 7 {
      return NotHashed(OutOfRange);
    }
    var i := 0;
    while i < |data| - 7 && data[i..i + 7] != NEEDLE
      invariant i <= |data| - 7 && Search(data, i) == Search(data, 0)
    {
      i := i + 1;
    }
    var dictStart := i + 6;
    var end := ScanInfo(data, i + 7);
    if !end.End? {
      return NotHashed(end);
    }
    return Hashed(H(data[dictStart..end.at]));
  }
}
