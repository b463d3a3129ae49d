// What the parser makes of inputs that are no encodings.
module BencodeInputs {
  import opened Common
  import opened BencodeSpec
  import opened BencodeRoundTrip
  import opened BencodeText
  import opened BencodeNesting

  // ----- the first bytes -----

  lemma {:induction false} LeadingEnds(data: bytes, i: nat, k: nat)
    requires i <= k <= |data| && forall j :: i <= j < k ==> data[j] == 'e' as int
    ensures Lex(data, i, []) == Lex(data, k, [])
    decreases k - i
  {
    if i < k {
      LeadingEnds(data, i + 1, k);
    }
  }

  // The first token is of the kind of the byte it starts with.
  lemma {:induction false} FirstToken(data: bytes, k: nat)
    requires k < |data| && data[k] != 'e' as int && Lex(data, k, []).Tokens?
    ensures Lex(data, k, []).tokens != []
    ensures Lex(data, k, []).tokens[0] == TDict <==> data[k] == 'd' as int
  {
    hide Find, HeaderLength;
  }

  // Ends in front of everything are skipped. Then the first byte decides: without one
  // the parser indexes out of range, one that starts no token is an error, and only
  // one that opens a dictionary can be accepted.
  lemma {:induction false} FirstByteDecides(data: bytes, k: nat)
    requires k <= |data| && forall j :: 0 <= j < k ==> data[j] == 'e' as int
    requires k < |data| ==> data[k] != 'e' as int
    ensures k == |data| ==> Parse(data) == ParsePanics
    ensures k < |data| && !('0' as int <= data[k] <= '9' as int) && data[k] !in {'d' as int, 'l' as int, 'i' as int} ==>
              Parse(data) == ParseError
    ensures Parse(data).Parsed? ==> k < |data| && data[k] == 'd' as int
  {
    LeadingEnds(data, 0, k);
    hide ParseDict;
    if k < |data| && Lex(data, k, []).Tokens? {
      FirstToken(data, k);
      hide Lex;
      if data[k] != 'd' as int {
        NotADictionary(Lex(data, k, []).tokens);
      }
    }
  }

  lemma {:induction false} NotADictionary(ts: seq<Token>)
    requires ts != [] && ts[0] != TDict
    ensures ParseDict(ts) == None
  {
  }

  // What is accepted is one dictionary: its tokens nest, the first opens it, and only
  // the last closes it.
  lemma {:induction false} AcceptedNests(data: bytes)
    requires Parse(data).Parsed?
    ensures Lex(data, 0, []).Tokens?
    ensures var ts := Lex(data, 0, []).tokens;
            ts != [] && ts[0] == TDict && Enclosed(ts)
  {
    hide Lex, ParseDict, Enclosed;
    LexNests(data, 0, []);
    AcceptedIsOneDictionary(Lex(data, 0, []).tokens);
  }

  // ----- a value that is no dictionary -----

  lemma {:induction false} OnlyDictionariesParse(v: Value)
    requires WellFormed(v)
    ensures Parse(Encode(v)) == if v.Dict? then Parsed(v.entries) else ParseError
  {
    if v.Dict? {
      ParseUndoesEncode(v);
    } else {
      assert Toks(v)[0] != TDict;
      hide Encode, Toks, Lex, ParseDict, WellFormed, At;
      WholeAt(Encode(v));
      LexEncoded(Encode(v), 0, v, []);
      assert Toks(v) + [] == Toks(v);
      NotADictionary(Toks(v));
    }
  }

  // ----- entries in any order -----

  // Keys and values as they stand in the input.
  type Entries = seq<(bytes, Value)>

  ghost predicate Fine(es: Entries) {
    forall i :: 0 <= i < |es| ==> |es[i].0| < INT64_LIMIT && WellFormed(es[i].1)
  }

  ghost function EntryText(es: Entries): bytes {
    if es == [] then []
    else
      var last := es[|es| - 1];
      EntryText(es[..|es| - 1]) + EncodeStr(last.0) + Encode(last.1)
  }

  ghost function EntryTokens(es: Entries): seq<Token> {
    if es == [] then []
    else
      var last := es[|es| - 1];
      EntryTokens(es[..|es| - 1]) + [TString(last.0)] + Toks(last.1)
  }

  function LastWins(es: Entries): map<bytes, Value> {
    if es == [] then map[]
    else
      var last := es[|es| - 1];
      LastWins(es[..|es| - 1])[last.0 := last.1]
  }

  // Every key that stands there has the value that stands with it last.
  lemma {:induction false} LastWinsMeans(es: Entries)
    ensures forall k :: k in LastWins(es) <==> exists i :: 0 <= i < |es| && es[i].0 == k
    ensures forall i :: 0 <= i < |es| && (forall j :: i < j < |es| ==> es[j].0 != es[i].0) ==>
              es[i].0 in LastWins(es) && LastWins(es)[es[i].0] == es[i].1
  {
    forall k
      ensures k in LastWins(es) <==> exists i :: 0 <= i < |es| && es[i].0 == k
    {
      KeyStands(es, k);
    }
    forall i | 0 <= i < |es| && forall j :: i < j < |es| ==> es[j].0 != es[i].0
      ensures es[i].0 in LastWins(es) && LastWins(es)[es[i].0] == es[i].1
    {
      LastStands(es, i);
    }
  }

  lemma {:induction false} KeyStands(es: Entries, k: bytes)
    ensures k in LastWins(es) <==> exists i :: 0 <= i < |es| && es[i].0 == k
  {
    if es != [] {
      var before, last := es[..|es| - 1], es[|es| - 1];
      KeyStands(before, k);
      if i :| 0 <= i < |es| && es[i].0 == k && last.0 != k {
        assert before[i].0 == k;
      }
      if i :| 0 <= i < |before| && before[i].0 == k {
        assert es[i].0 == k;
      }
    }
  }

  lemma {:induction false} LastStands(es: Entries, i: nat)
    requires i < |es| && forall j :: i < j < |es| ==> es[j].0 != es[i].0
    ensures es[i].0 in LastWins(es) && LastWins(es)[es[i].0] == es[i].1
  {
    if i < |es| - 1 {
      var before := es[..|es| - 1];
      assert before[i] == es[i];
      LastStands(before, i);
    }
  }

  // Without equal keys the order does not matter.
  lemma {:induction false} OrderDoesNotMatter(es: Entries, fs: Entries)
    requires forall i, j :: 0 <= i < j < |es| ==> es[i].0 != es[j].0
    requires forall i, j :: 0 <= i < j < |fs| ==> fs[i].0 != fs[j].0
    requires forall e :: e in es <==> e in fs
    ensures LastWins(es) == LastWins(fs)
  {
    LastWinsMeans(es);
    LastWinsMeans(fs);
    hide LastWins;
    forall k | k in LastWins(es)
      ensures k in LastWins(fs) && LastWins(fs)[k] == LastWins(es)[k]
    {
      var i :| 0 <= i < |es| && es[i].0 == k;
      assert es[i] in fs;
      var j :| 0 <= j < |fs| && fs[j] == es[i];
    }
    forall k | k in LastWins(fs)
      ensures k in LastWins(es)
    {
      var j :| 0 <= j < |fs| && fs[j].0 == k;
      assert fs[j] in es;
      var i :| 0 <= i < |es| && es[i] == fs[j];
    }
  }

  // ----- an opened dictionary -----

  // A dictionary with these entries and anything behind them.
  ghost function Opened(es: Entries, rest: bytes): bytes {
    ['d' as int] + EntryText(es) + rest
  }

  lemma {:induction false} FineParts(es: Entries)
    requires Fine(es) && es != []
    ensures Fine(es[..|es| - 1]) && |es[|es| - 1].0| < INT64_LIMIT && WellFormed(es[|es| - 1].1)
  {
  }

  lemma {:induction false} LexEntryText(data: bytes, i: nat, es: Entries, stack: seq<Container>)
    requires Fine(es) && At(data, i, EntryText(es))
    ensures Lex(data, i, stack) == Prepend(EntryTokens(es), Lex(data, i + |EntryText(es)|, stack))
  {
    hide *;
    if es == [] {
      NoEntryText();
      NoTokens(Lex(data, i, stack));
    } else {
      var before, last := es[..|es| - 1], es[|es| - 1];
      FineParts(es);
      LastEntryText(es);
      AtSplit(data, i, EntryText(before) + EncodeStr(last.0), Encode(last.1));
      AtSplit(data, i, EntryText(before), EncodeStr(last.0));
      LexEntryText(data, i, before, stack);
      var j := i + |EntryText(before)|;
      LexStr(data, j, last.0, stack);
      LexEncoded(data, j + |EncodeStr(last.0)|, last.1, stack);
      var rest := Lex(data, j + |EncodeStr(last.0)| + |Encode(last.1)|, stack);
      PrependPrepend([TString(last.0)], Toks(last.1), rest);
      PrependPrepend(EntryTokens(before), [TString(last.0)] + Toks(last.1), rest);
      assert EntryTokens(before) + ([TString(last.0)] + Toks(last.1)) == EntryTokens(before) + [TString(last.0)] + Toks(last.1);
    }
  }

  lemma {:induction false} NoEntryText()
    ensures EntryText([]) == [] && EntryTokens([]) == []
  {
  }

  lemma {:induction false} LastEntryText(es: Entries)
    requires es != []
    ensures var before, last := es[..|es| - 1], es[|es| - 1];
            && EntryText(es) == EntryText(before) + EncodeStr(last.0) + Encode(last.1)
            && EntryTokens(es) == EntryTokens(before) + [TString(last.0)] + Toks(last.1)
  {
  }

  lemma {:induction false} OpenedParts(es: Entries, rest: bytes)
    ensures var data, i := Opened(es, rest), 1 + |EntryText(es)|;
            && data != [] && data[0] == LOWER_D && At(data, 1, EntryText(es))
            && |data| == i + |rest| && data[i..] == rest && At(data, i, rest)
  {
    hide EntryText;
    var data, i := Opened(es, rest), 1 + |EntryText(es)|;
    assert data[1..i] == EntryText(es);
    assert data[i..] == rest;
  }

  // The tokens of the entries stand in front of what the rest gives.
  lemma {:induction false} LexOpened(es: Entries, rest: bytes)
    requires Fine(es)
    ensures Lex(Opened(es, rest), 0, [])
         == Prepend([TDict] + EntryTokens(es), Lex(Opened(es, rest), 1 + |EntryText(es)|, [InDict]))
  {
    var data := Opened(es, rest);
    OpenedParts(es, rest);
    assert [] + [InDict] == [InDict];
    assert Lex(data, 0, []) == Prepend([TDict], Lex(data, 1, [InDict]));
    hide Lex, Opened, EntryText, EntryTokens, Fine, At;
    LexEntryText(data, 1, es, [InDict]);
    PrependPrepend([TDict], EntryTokens(es), Lex(data, 1 + |EntryText(es)|, [InDict]));
  }

  // The loop over a dictionary takes the entries one by one.
  lemma {:induction false} EntriesAreTaken(ts: seq<Token>, es: Entries)
    requires Fine(es) && [TDict] + EntryTokens(es) < ts
    ensures DictItems(ts, 1, map[]) == DictItems(ts, 1 + |EntryTokens(es)|, LastWins(es))
  {
    hide *;
    if es == [] {
      NoEntryText();
      NothingWins();
    } else {
      var before, last := es[..|es| - 1], es[|es| - 1];
      var n := |EntryTokens(before)|;
      FineParts(es);
      LastEntryText(es);
      EntryStands(ts, EntryTokens(before), TString(last.0), Toks(last.1));
      EntriesAreTaken(ts, before);
      ParseAtToks(ts, 2 + n, last.1);
      NextEntry(ts, 1 + n, LastWins(before), last.0, last.1, |Toks(last.1)|);
      OneMoreWins(es);
    }
  }

  lemma {:induction false} NothingWins()
    ensures LastWins([]) == map[]
  {
  }

  lemma {:induction false} OneMoreWins(es: Entries)
    requires es != []
    ensures LastWins(es) == LastWins(es[..|es| - 1])[es[|es| - 1].0 := es[|es| - 1].1]
  {
  }

  lemma {:induction false} EntryStands(ts: seq<Token>, before: seq<Token>, t: Token, w: seq<Token>)
    requires [TDict] + (before + [t] + w) < ts && w != []
    ensures 1 + |before| < |ts| - 2 && ts[1 + |before|] == t && Has(ts, 2 + |before|, w) && [TDict] + before < ts
  {
    var front := [TDict] + (before + [t] + w);
    assert front == ([TDict] + before) + [t] + w;
    assert [TDict] + before == front[..1 + |before|];
    assert ts[..|front|] == front;
    assert ts[2 + |before|..2 + |before| + |w|] == front[2 + |before|..];
  }

  function Ends(k: nat): (r: bytes)
    ensures |r| == k && forall j :: 0 <= j < k ==> r[j] == 'e' as int
  {
    seq(k, _ => 'e' as int)
  }

  // A dictionary whose entries stand in any order, with equal keys or not, and with
  // stray ends behind it, is accepted; of equal keys the last wins.
  lemma {:induction false} EntriesParse(es: Entries, k: nat)
    requires Fine(es)
    ensures Parse(Opened(es, ['e' as int] + Ends(k))) == Parsed(LastWins(es))
  {
    hide *;
    ClosedByEnds(es, k);
    ParseOpened(es, ['e' as int] + Ends(k), [TEndDict]);
    var ts := [TDict] + EntryTokens(es) + [TEndDict];
    EntriesAreTaken(ts, es);
    DictItemsEnd(ts, 1 + |EntryTokens(es)|, LastWins(es));
    ParseDictIs(ts);
  }

  lemma {:induction false} ClosedByEnds(es: Entries, k: nat)
    ensures Lex(Opened(es, ['e' as int] + Ends(k)), 1 + |EntryText(es)|, [InDict]) == LexResult.Tokens([TEndDict])
  {
    var rest := ['e' as int] + Ends(k);
    var data, i := Opened(es, rest), 1 + |EntryText(es)|;
    OpenedParts(es, rest);
    hide Lex, Opened, EntryText, Ends;
    forall j | i <= j < |data|
      ensures data[j] == 'e' as int
    {
      assert data[i..][j - i] == data[j];
    }
    EndsGive(data, i);
  }

  // The tokens and the result, when the rest is made of tokens.
  lemma {:induction false} ParseOpened(es: Entries, rest: bytes, more: seq<Token>)
    requires Fine(es) && Lex(Opened(es, rest), 1 + |EntryText(es)|, [InDict]) == LexResult.Tokens(more)
    ensures var ts := [TDict] + EntryTokens(es) + more;
            && Lex(Opened(es, rest), 0, []) == LexResult.Tokens(ts)
            && Parse(Opened(es, rest)) == if ParseDict(ts).None? then ParseError else Parsed(ParseDict(ts).value)
  {
    hide Lex, Opened, EntryText, EntryTokens, ParseDict, Fine;
    LexOpened(es, rest);
  }

  lemma {:induction false} ParseDictIs(ts: seq<Token>)
    requires ts != [] && ts[0] == TDict && ts[|ts| - 1] == TEndDict
    ensures ParseDict(ts) == DictItems(ts, 1, map[])
  {
    hide DictItems;
  }

  lemma {:induction false} EndsGive(data: bytes, i: nat)
    requires i < |data| && forall j :: i <= j < |data| ==> data[j] == 'e' as int
    ensures Lex(data, i, [InDict]) == LexResult.Tokens([TEndDict])
  {
    LeadingEnds(data, i + 1, |data|);
    assert [InDict][..0] == [];
    assert Lex(data, |data|, []) == LexResult.Tokens([]);
    assert [TEndDict] + [] == [TEndDict];
  }

  // A key with no value behind it is dropped.
  lemma {:induction false} KeyWithoutValue(es: Entries, key: bytes)
    requires Fine(es) && |key| < INT64_LIMIT
    ensures Parse(Opened(es, EncodeStr(key) + ['e' as int])) == Parsed(LastWins(es))
  {
    hide *;
    var rest := EncodeStr(key) + ['e' as int];
    var data, i := Opened(es, rest), 1 + |EntryText(es)|;
    RestAndEnd(es, EncodeStr(key));
    LexStr(data, i, key, [InDict]);
    EndsGive(data, i + |EncodeStr(key)|);
    TwoTokens(TString(key), TEndDict);
    ParseOpened(es, rest, [TString(key), TEndDict]);
    var ts := [TDict] + EntryTokens(es) + [TString(key), TEndDict];
    EntriesAreTaken(ts, es);
    ParseDictIs(ts);
    KeyDropped(ts, 1 + |EntryTokens(es)|, LastWins(es));
  }

  lemma {:induction false} RestAndEnd(es: Entries, a: bytes)
    ensures var data, i := Opened(es, a + ['e' as int]), 1 + |EntryText(es)|;
            At(data, i, a) && |data| == i + |a| + 1 && data[i + |a|] == 'e' as int
  {
    var rest := a + ['e' as int];
    var data, i := Opened(es, rest), 1 + |EntryText(es)|;
    OpenedParts(es, rest);
    hide Opened, EntryText;
    AtSplit(data, i, a, ['e' as int]);
    AtFirst(data, i + |a|, ['e' as int]);
  }

  lemma {:induction false} PrependTokens(a: seq<Token>, b: seq<Token>)
    ensures Prepend(a, LexResult.Tokens(b)) == LexResult.Tokens(a + b)
  {
  }

  lemma {:induction false} TwoTokens(a: Token, b: Token)
    ensures Prepend([a], LexResult.Tokens([b])) == LexResult.Tokens([a, b])
  {
  }

  lemma {:induction false} KeyDropped(ts: seq<Token>, i: nat, dict: map<bytes, Value>)
    requires 1 <= i == |ts| - 2 && ts[i].TString? && ts[i + 1] == TEndDict
    ensures DictItems(ts, i, dict) == Some(dict)
  {
    hide ParseAt;
    DictItemsEnd(ts, i + 2, dict);
  }

  // A key that is no string is an error.
  lemma {:induction false} KeyMustBeString(es: Entries, v: Value)
    requires Fine(es) && WellFormed(v) && !v.Str?
    ensures Parse(Opened(es, Encode(v) + ['e' as int])) == ParseError
  {
    hide *;
    var rest := Encode(v) + ['e' as int];
    var data, i := Opened(es, rest), 1 + |EntryText(es)|;
    RestAndEnd(es, Encode(v));
    NoString(v);
    LexEncoded(data, i, v, [InDict]);
    EndsGive(data, i + |Encode(v)|);
    PrependTokens(Toks(v), [TEndDict]);
    ParseOpened(es, rest, Toks(v) + [TEndDict]);
    var ts := [TDict] + EntryTokens(es) + (Toks(v) + [TEndDict]);
    EntriesAreTaken(ts, es);
    ParseDictIs(ts);
    KeyRefused(ts, 1 + |EntryTokens(es)|, LastWins(es));
  }

  lemma {:induction false} NoString(v: Value)
    requires !v.Str?
    ensures !Toks(v)[0].TString?
  {
  }

  lemma {:induction false} KeyRefused(ts: seq<Token>, i: nat, dict: map<bytes, Value>)
    requires 1 <= i < |ts| - 1 && !ts[i].TString?
    ensures DictItems(ts, i, dict) == None
  {
    hide ParseAt;
  }

  // A dictionary that is not closed is an error, wherever between its entries it stops.
  lemma {:induction false} UnclosedIsError(es: Entries)
    requires Fine(es)
    ensures Parse(Opened(es, [])) == ParseError
  {
    OpenedParts(es, []);
    NothingMore(Opened(es, []), 1 + |EntryText(es)|);
    hide *;
    ParseOpened(es, [], []);
    var ts := [TDict] + EntryTokens(es) + [];
    assert ts == [TDict] + EntryTokens(es);
    EntriesStayOpen(es);
    if ParseDict(ts).Some? {
      AcceptedNests(Opened(es, []));
      EnclosedCloses(ts);
    }
  }

  lemma {:induction false} NothingMore(data: bytes, i: nat)
    requires i >= |data|
    ensures Lex(data, i, [InDict]) == LexResult.Tokens([])
  {
  }

  lemma {:induction false} EnclosedCloses(ts: seq<Token>)
    requires Enclosed(ts)
    ensures Nest([], ts) == Some([])
  {
  }

  lemma {:induction false} EntriesStayOpen(es: Entries)
    ensures Nest([], [TDict] + EntryTokens(es)) == Some([InDict])
  {
    hide *;
    EntriesKeep(es);
    NestAppend([], [TDict], EntryTokens(es));
    KeepsMeans([InDict], EntryTokens(es));
    OpensDict();
  }

  lemma {:induction false} OpensDict()
    ensures Nest([], [TDict]) == Some([InDict])
  {
    NestSingle([], TDict);
    assert [] + [InDict] == [InDict];
  }

  lemma {:induction false} KeepsMeans(open: seq<Container>, ts: seq<Token>)
    requires Keeps(open, ts)
    ensures Nest(open, ts) == Some(open)
  {
  }

  lemma {:induction false} EntriesKeep(es: Entries)
    ensures Keeps([InDict], EntryTokens(es))
  {
    if es == [] {
      assert EntryTokens(es)[..0] == [];
    } else {
      var before, last := es[..|es| - 1], es[|es| - 1];
      hide Keeps, Toks;
      EntriesKeep(before);
      KeepsSimple([InDict], TString(last.0));
      ToksNest([InDict], last.1);
      KeepsAppend([InDict], EntryTokens(before), [TString(last.0)]);
      KeepsAppend([InDict], EntryTokens(before) + [TString(last.0)], Toks(last.1));
    }
  }

  // ----- what is found where a key is looked for -----

  lemma {:induction false} BadRest(es: Entries, rest: bytes, r: LexResult)
    requires Fine(es) && !r.Tokens? && Lex(Opened(es, rest), 1 + |EntryText(es)|, [InDict]) == r
    ensures Parse(Opened(es, rest)) == if r.InvalidByte? then ParseError else ParsePanics
  {
    hide Lex, Opened, EntryText, EntryTokens, ParseDict, Fine;
    LexOpened(es, rest);
  }

  // A byte that starts no token is an error.
  lemma {:induction false} JunkIsError(es: Entries, rest: bytes)
    requires Fine(es) && rest != [] && !('0' as int <= rest[0] <= '9' as int)
    requires rest[0] !in {'d' as int, 'l' as int, 'i' as int, 'e' as int}
    ensures Parse(Opened(es, rest)) == ParseError
  {
    OpenedParts(es, rest);
    var data, i := Opened(es, rest), 1 + |EntryText(es)|;
    assert data[i..][0] == data[i];
    hide Opened, EntryText, Fine;
    BadRest(es, rest, InvalidByte);
  }

  // A number without its end makes the tokenizer index out of range.
  lemma {:induction false} EndlessNumberPanics(es: Entries, t: bytes)
    requires Fine(es) && 'e' as int !in t
    ensures Parse(Opened(es, ['i' as int] + t)) == ParsePanics
  {
    var rest := ['i' as int] + t;
    OpenedParts(es, rest);
    var data, i := Opened(es, rest), 1 + |EntryText(es)|;
    hide Opened, EntryText, Fine;
    assert data[i..][0] == data[i];
    forall j | i + 1 <= j < |data|
      ensures data[j] != LOWER_E
    {
      assert data[i..][j - i] == data[j] && rest[j - i] == t[j - i - 1];
    }
    BadRest(es, rest, LexPanics);
  }

  // So does a string that is shorter than its length says.
  lemma {:induction false} ShortStringPanics(es: Entries, n: nat, s: bytes)
    requires Fine(es) && |s| < n < INT64_LIMIT
    ensures Parse(Opened(es, Decimal(n) + [':' as int] + s)) == ParsePanics
  {
    var d := Decimal(n);
    var rest := d + [':' as int] + s;
    OpenedParts(es, rest);
    var data, i := Opened(es, rest), 1 + |EntryText(es)|;
    hide Opened, EntryText, Fine, Lex;
    AtSplit(data, i, d + [COLON], s);
    FindStops(data, i, d, COLON);
    AtSplit(data, i, d, [COLON]);
    AtFirst(data, i, d);
    DecimalRoundTrip(n);
    HeaderOfDecimal(d);
    assert data[i..i + |d|] == d && IsDigit(data[i]) && |data| == i + |d| + 1 + |s|;
    hide At, Decimal, HeaderLength, Find;
    TooShort(data, i, d, |s|);
    BadRest(es, rest, LexPanics);
  }

  lemma {:induction false} TooShort(data: bytes, i: nat, d: bytes, left: nat)
    requires i < |data| && IsDigit(data[i]) && Find(data, i, COLON) == i + |d| && |data| == i + |d| + 1 + left
    requires data[i..i + |d|] == d && HeaderLength(d) > left
    ensures Lex(data, i, [InDict]) == LexPanics
  {
    hide HeaderLength, Find;
  }

  // ----- one value more -----

  // A key and behind it x, which is one token, and the end.
  lemma {:induction false} OneMoreValue(es: Entries, key: bytes, x: bytes, t: Token, v: Option<Value>)
    requires Fine(es) && |key| < INT64_LIMIT && ScalarOf(t, v)
    requires var data, j := WithValue(es, key, x), 1 + |EntryText(es)| + |EncodeStr(key)|;
             Lex(data, j, [InDict]) == Prepend([t], Lex(data, j + |x|, [InDict]))
    ensures Parse(WithValue(es, key, x))
         == if v.None? then ParseError else Parsed(LastWins(es)[key := v.value])
  {
    hide *;
    LexValue(es, key, x, t);
    ParseWith(es, key, x, [TString(key), t, TEndDict]);
    var ts := [TDict] + EntryTokens(es) + [TString(key), t, TEndDict];
    EntriesAreTaken(ts, es);
    ParseDictIs(ts);
    ScalarTaken(ts, 1 + |EntryTokens(es)|, LastWins(es), t, v);
  }

  lemma {:induction false} LexValue(es: Entries, key: bytes, x: bytes, t: Token)
    requires |key| < INT64_LIMIT
    requires var data, j := WithValue(es, key, x), 1 + |EntryText(es)| + |EncodeStr(key)|;
             Lex(data, j, [InDict]) == Prepend([t], Lex(data, j + |x|, [InDict]))
    ensures Lex(WithValue(es, key, x), 1 + |EntryText(es)|, [InDict]) == LexResult.Tokens([TString(key), t, TEndDict])
  {
    hide *;
    var data, i := WithValue(es, key, x), 1 + |EntryText(es)|;
    ValueAt(es, key, x);
    LexStr(data, i, key, [InDict]);
    EndsGive(data, i + |EncodeStr(key)| + |x|);
    TwoTokens(t, TEndDict);
    PrependTokens([TString(key)], [t, TEndDict]);
    assert [TString(key)] + [t, TEndDict] == [TString(key), t, TEndDict];
  }

  lemma {:induction false} ParseWith(es: Entries, key: bytes, x: bytes, more: seq<Token>)
    requires Fine(es) && Lex(WithValue(es, key, x), 1 + |EntryText(es)|, [InDict]) == LexResult.Tokens(more)
    ensures var ts := [TDict] + EntryTokens(es) + more;
            Parse(WithValue(es, key, x)) == if ParseDict(ts).None? then ParseError else Parsed(ParseDict(ts).value)
  {
    hide Lex, Opened, EntryText, EntryTokens, ParseDict, Fine, EncodeStr, Parse;
    ParseOpened(es, EncodeStr(key) + x + ['e' as int], more);
  }

  ghost predicate ScalarOf(t: Token, v: Option<Value>) {
    || (t.TString? && v == Some(Str(t.value)))
    || (t.TInteger? && v == match ParseInt(t.text, INT64_LIMIT) case None => None case Some(n) => Some(Int(n)))
  }

  lemma {:induction false} IntegerScalar(t: bytes, v: Option<Value>)
    requires v == match ParseInt(t, INT64_LIMIT) case None => None case Some(n) => Some(Int(n))
    ensures ScalarOf(TInteger(t), v)
  {
    hide ParseInt;
  }

  lemma {:induction false} EmptyScalar()
    ensures ScalarOf(TString([]), Some(Str([])))
  {
  }

  lemma {:induction false} ValueAt(es: Entries, key: bytes, x: bytes)
    ensures var data, i, j := WithValue(es, key, x), 1 + |EntryText(es)|, 1 + |EntryText(es)| + |EncodeStr(key)|;
            && At(data, i, EncodeStr(key)) && At(data, j, x) && |data| == j + |x| + 1 && data[j + |x|] == 'e' as int
  {
    hide Opened, EntryText, EncodeStr, At;
    RestAndEnd(es, EncodeStr(key) + x);
    AtSplit(WithValue(es, key, x), 1 + |EntryText(es)|, EncodeStr(key), x);
  }

  lemma {:induction false} ScalarTaken(ts: seq<Token>, i: nat, dict: map<bytes, Value>, t: Token, v: Option<Value>)
    requires 1 <= i == |ts| - 3 && ts[i].TString? && ts[i + 1] == t && ScalarOf(t, v)
    ensures DictItems(ts, i, dict) == if v.None? then None else Some(dict[ts[i].value := v.value])
  {
    hide ParseInt, MatchEnd, ParseList, ParseDict;
    assert ParseAt(ts, i + 1) == if v.None? then None else Some((v.value, i + 1));
    hide ParseAt;
    if v.Some? {
      DictItemsEnd(ts, i + 2, dict[ts[i].value := v.value]);
    }
  }

  // A number with any text, and the length in front of a string.
  function Number(t: bytes): bytes {
    ['i' as int] + t + ['e' as int]
  }

  function Header(h: bytes): bytes {
    h + [':' as int]
  }

  // A dictionary with one key more, and x as its value.
  ghost function WithValue(es: Entries, key: bytes, x: bytes): bytes {
    Opened(es, EncodeStr(key) + x + ['e' as int])
  }

  // An integer is accepted exactly when its text is that of a number in range.
  lemma {:induction false} IntegerTexts(es: Entries, key: bytes, t: bytes)
    requires Fine(es) && |key| < INT64_LIMIT && 'e' as int !in t
    ensures Parse(WithValue(es, key, Number(t)))
         == match ParseInt(t, INT64_LIMIT) case None => ParseError case Some(n) => Parsed(LastWins(es)[key := Int(n)])
  {
    hide *;
    var x, j := Number(t), 1 + |EntryText(es)| + |EncodeStr(key)|;
    var v := match ParseInt(t, INT64_LIMIT) case None => None case Some(n) => Some(Int(n));
    ValueAt(es, key, x);
    IntegerToken(WithValue(es, key, x), j, t);
    IntegerScalar(t, v);
    OneMoreValue(es, key, x, TInteger(t), v);
  }

  lemma {:induction false} IntegerToken(data: bytes, j: nat, t: bytes)
    requires At(data, j, Number(t)) && 'e' as int !in t
    ensures Lex(data, j, [InDict]) == Prepend([TInteger(t)], Lex(data, j + |Number(t)|, [InDict]))
  {
    hide Lex;
    AtSplit(data, j, ['i' as int] + t, ['e' as int]);
    AtSplit(data, j, ['i' as int], t);
    AtFirst(data, j, ['i' as int]);
    AtFirst(data, j + 1 + |t|, ['e' as int]);
    assert data[j + 1..j + 1 + |t|] == t;
    assert t + [LOWER_E] == data[j + 1..j + 2 + |t|];
    FindStops(data, j + 1, t, LOWER_E);
    hide At, Find;
    LexIntText(data, j, t, [InDict]);
  }

  // A length that wraps round to zero or below stands for the empty string.
  lemma {:induction false} WrappedLengthIsEmpty(es: Entries, key: bytes, h: bytes)
    requires Fine(es) && |key| < INT64_LIMIT && h != [] && AllDigits(h) && Wrap64(DecimalValue(h)) <= 0
    ensures Parse(WithValue(es, key, Header(h))) == Parsed(LastWins(es)[key := Str([])])
  {
    hide *;
    var x, j := Header(h), 1 + |EntryText(es)| + |EncodeStr(key)|;
    ValueAt(es, key, x);
    EmptyToken(WithValue(es, key, x), j, h);
    EmptyScalar();
    OneMoreValue(es, key, x, TString([]), Some(Str([])));
  }

  lemma {:induction false} EmptyToken(data: bytes, j: nat, h: bytes)
    requires At(data, j, Header(h)) && h != [] && AllDigits(h) && Wrap64(DecimalValue(h)) <= 0
    ensures Lex(data, j, [InDict]) == Prepend([TString([])], Lex(data, j + |Header(h)|, [InDict]))
  {
    hide Lex, Find, HeaderLength, Wrap64, DecimalValue;
    assert COLON !in h && IsDigit(h[0]);
    FindStops(data, j, h, COLON);
    AtSplit(data, j, h, [COLON]);
    AtFirst(data, j, h);
    LengthWrapsOnce(h);
    LexEmpty(data, j, h);
  }

  lemma {:induction false} LexEmpty(data: bytes, j: nat, h: bytes)
    requires At(data, j, h) && j + |h| < |data| && IsDigit(data[j]) && Find(data, j, COLON) == j + |h| && HeaderLength(h) <= 0
    ensures Lex(data, j, [InDict]) == Prepend([TString([])], Lex(data, j + |h| + 1, [InDict]))
  {
    hide Find, HeaderLength;
  }
}
