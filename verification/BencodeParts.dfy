// What the parser gives for any tokens that nest, container by container: a container
// that is closed is a row of parts, each a string, an integer or a container that is
// closed in turn, and what they stand for decides.
module BencodeParts {
  import opened Common
  import opened BencodeSpec
  import opened BencodeRoundTrip
  import opened BencodeNesting
  import opened BencodeInputs

  ghost predicate IsPart(p: seq<Token>) {
    (|p| == 1 && (p[0].TString? || p[0].TInteger?)) || Enclosed(p)
  }

  ghost predicate AllParts(ps: seq<seq<Token>>) {
    forall k :: 0 <= k < |ps| ==> IsPart(ps[k])
  }

  ghost function Row(ps: seq<seq<Token>>): seq<Token> {
    if ps == [] then [] else ps[0] + Row(ps[1..])
  }

  // ----- what parts stand for -----

  // The value of a part, if it has one.
  ghost function ValueOf(p: seq<Token>): Option<Value> {
    if p == [] then None
    else
      match p[0]
      case TString(s) => Some(Str(s))
      case TInteger(text) => (match ParseInt(text, 0x8000_0000_0000_0000) case None => None case Some(n) => Some(Int(n)))
      case TList => (match ParseList(p) case None => None case Some(items) => Some(List(items)))
      case TDict => (match ParseDict(p) case None => None case Some(entries) => Some(Dict(entries)))
      case _ => None
  }

  // A list has its values in order, and none if one of the parts has no value.
  ghost predicate IsListOf(ps: seq<seq<Token>>, r: Option<seq<Value>>) {
    if exists k :: 0 <= k < |ps| && ValueOf(ps[k]).None? then r == None
    else r.Some? && |r.value| == |ps| && forall k :: 0 <= k < |ps| ==> ValueOf(ps[k]) == Some(r.value[k])
  }

  // The entries of a dictionary: keys that are strings, each with its value; one key
  // without a value may stand last, and is dropped.
  ghost function EntriesOf(ps: seq<seq<Token>>): Option<Entries>
    decreases |ps|
  {
    if ps == [] then Some([])
    else if |ps[0]| != 1 || !ps[0][0].TString? then None
    else if |ps| == 1 then Some([])
    else if ValueOf(ps[1]).None? || EntriesOf(ps[2..]).None? then None
    else Some([(ps[0][0].value, ValueOf(ps[1]).value)] + EntriesOf(ps[2..]).value)
  }

  // ----- one part -----

  lemma {:induction false} PartIsParsed(ts: seq<Token>, i: nat, p: seq<Token>)
    requires 1 <= i && IsPart(p) && Has(ts, i, p)
    ensures p != [] && i < |ts| - 1 && !ts[i].TEndList? && !ts[i].TEndDict? && ts[i] == p[0]
    ensures ParseAt(ts, i) == if ValueOf(p).None? then None else Some((ValueOf(p).value, i + |p| - 1))
  {
    assert ts[i] == p[0] by {
      assert ts[i..i + |p|][0] == ts[i];
    }
    if Enclosed(p) {
      FirstOpens(p);
      MatchEndIsTheEnd(ts, i, p);
      hide Enclosed, MatchEnd, ParseList, ParseDict;
    } else {
      hide Enclosed, ParseInt;
    }
  }

  // ----- a row of parts -----

  lemma {:induction false} RowSplit(ts: seq<Token>, i: nat, ps: seq<seq<Token>>, u: Token)
    requires i < |ts| && ts[i..] == Row(ps) + [u] && ps != []
    ensures Has(ts, i, ps[0]) && ts[i + |ps[0]|..] == Row(ps[1..]) + [u]
  {
    var p, rest := ps[0], Row(ps[1..]) + [u];
    assert ts[i..] == p + rest;
    assert ts[i..i + |p|] == ts[i..][..|p|] && ts[i + |p|..] == ts[i..][|p|..];
  }

  lemma {:induction false} ItemsAre(ts: seq<Token>, i: nat, ps: seq<seq<Token>>, u: Token)
    requires 1 <= i < |ts| && ts[i..] == Row(ps) + [u] && AllParts(ps)
    ensures IsListOf(ps, ListItems(ts, i))
    decreases |ps|
  {
    hide ParseAt, ValueOf, IsPart;
    if ps != [] {
      var p, rest := ps[0], ps[1..];
      RowSplit(ts, i, ps, u);
      PartIsParsed(ts, i, p);
      ItemsAre(ts, i + |p|, rest, u);
      hide Row, ListItems;
      OneMoreItemIs(ts, i, ps);
    }
  }

  lemma {:induction false} OneMoreItemIs(ts: seq<Token>, i: nat, ps: seq<seq<Token>>)
    requires 1 <= i < |ts| - 1 && !ts[i].TEndList? && !ts[i].TEndDict? && ps != [] && ps[0] != []
    requires ParseAt(ts, i) == if ValueOf(ps[0]).None? then None else Some((ValueOf(ps[0]).value, i + |ps[0]| - 1))
    requires IsListOf(ps[1..], ListItems(ts, i + |ps[0]|))
    ensures IsListOf(ps, ListItems(ts, i))
  {
    hide ParseAt, ValueOf;
    var rest := ps[1..];
    assert forall k :: 0 <= k < |rest| ==> rest[k] == ps[k + 1];
    if ValueOf(ps[0]).Some? {
      if k :| 0 <= k < |rest| && ValueOf(rest[k]).None? {
        assert ValueOf(ps[k + 1]).None?;
      }
    }
  }

  lemma {:induction false} EntriesAre(ts: seq<Token>, i: nat, ps: seq<seq<Token>>, es: Entries)
    requires 1 <= i < |ts| && ts[i..] == Row(ps) + [TEndDict] && AllParts(ps)
    ensures DictItems(ts, i, LastWins(es))
         == if EntriesOf(ps).None? then None else Some(LastWins(es + EntriesOf(ps).value))
    decreases |ps|
  {
    hide ParseAt, ValueOf, IsPart, Row, DictItems, LastWins, EntriesOf;
    if ps == [] {
      NoEntries(ts, i, es);
    } else {
      var key := ps[0];
      RowSplit(ts, i, ps, TEndDict);
      PartIsParsed(ts, i, key);
      if |key| != 1 || !key[0].TString? {
        NotAKey(ts, i, ps, LastWins(es));
      } else if |ps| == 1 {
        LoneKey(ts, i, ps, es);
      } else {
        RowSplit(ts, i + 1, ps[1..], TEndDict);
        PartIsParsed(ts, i + 1, ps[1]);
        assert ps[1..][1..] == ps[2..];
        if ValueOf(ps[1]).None? {
          NoValue(ts, i, ps, LastWins(es));
        } else {
          var e := (key[0].value, ValueOf(ps[1]).value);
          EntriesAre(ts, i + 1 + |ps[1]|, ps[2..], es + [e]);
          OneMoreWins(es + [e]);
          assert (es + [e])[..|es|] == es;
          NextEntry(ts, i, LastWins(es), e.0, e.1, |ps[1]|);
          FirstEntry(ps, es);
        }
      }
    }
  }

  lemma {:induction false} NoEntries(ts: seq<Token>, i: nat, es: Entries)
    requires 1 <= i < |ts| && ts[i..] == Row([]) + [TEndDict]
    ensures EntriesOf([]) == Some([]) && DictItems(ts, i, LastWins(es)) == Some(LastWins(es + []))
  {
    hide ParseAt, LastWins;
    assert es + [] == es;
    assert |ts[i..]| == 1;
  }

  lemma {:induction false} NotAKey(ts: seq<Token>, i: nat, ps: seq<seq<Token>>, dict: map<bytes, Value>)
    requires 1 <= i < |ts| - 1 && ps != [] && ps[0] != [] && ts[i] == ps[0][0] && IsPart(ps[0])
    requires |ps[0]| != 1 || !ps[0][0].TString?
    ensures DictItems(ts, i, dict) == None && EntriesOf(ps) == None
  {
    if Enclosed(ps[0]) {
      FirstOpens(ps[0]);
    }
    hide Enclosed, ParseAt, ValueOf;
  }

  lemma {:induction false} LoneKey(ts: seq<Token>, i: nat, ps: seq<seq<Token>>, es: Entries)
    requires 1 <= i < |ts| - 1 && |ps| == 1 && |ps[0]| == 1 && ps[0][0].TString? && ts[i] == ps[0][0]
    requires ts[i..] == Row(ps) + [TEndDict]
    ensures EntriesOf(ps) == Some([]) && DictItems(ts, i, LastWins(es)) == Some(LastWins(es + []))
  {
    hide ParseAt, LastWins, ValueOf;
    assert es + [] == es;
    assert Row(ps) == ps[0];
    assert ts[i + 1] == ts[i..][1] == TEndDict;
    DictItemsEnd(ts, i + 2, LastWins(es));
  }

  lemma {:induction false} NoValue(ts: seq<Token>, i: nat, ps: seq<seq<Token>>, dict: map<bytes, Value>)
    requires 1 <= i < |ts| - 2 && |ps| >= 2 && |ps[0]| == 1 && ps[0][0].TString? && ts[i] == ps[0][0]
    requires !ts[i + 1].TEndList? && !ts[i + 1].TEndDict? && ParseAt(ts, i + 1) == None && ValueOf(ps[1]).None?
    ensures EntriesOf(ps) == None && DictItems(ts, i, dict) == None
  {
    hide ParseAt, ValueOf;
  }

  lemma {:induction false} FirstEntry(ps: seq<seq<Token>>, es: Entries)
    requires |ps| >= 2 && |ps[0]| == 1 && ps[0][0].TString? && ValueOf(ps[1]).Some?
    ensures EntriesOf(ps).None? <==> EntriesOf(ps[2..]).None?
    ensures EntriesOf(ps).Some? ==>
              es + [(ps[0][0].value, ValueOf(ps[1]).value)] + EntriesOf(ps[2..]).value == es + EntriesOf(ps).value
  {
    hide ValueOf;
  }

  // ----- a container -----

  // A list is parsed if and only if all its parts are, and has their values.
  lemma {:induction false} ListIsParsed(ps: seq<seq<Token>>)
    requires AllParts(ps)
    ensures IsListOf(ps, ParseList([TList] + Row(ps) + [TEndList]))
  {
    hide Row, ListItems, IsListOf, AllParts;
    var ts := [TList] + Row(ps) + [TEndList];
    assert ts[1..] == Row(ps) + [TEndList];
    ItemsAre(ts, 1, ps, TEndList);
  }

  // A dictionary is parsed if and only if its parts are entries; of equal keys the
  // last wins.
  lemma {:induction false} DictIsParsed(ps: seq<seq<Token>>)
    requires AllParts(ps)
    ensures ParseDict([TDict] + Row(ps) + [TEndDict])
         == if EntriesOf(ps).None? then None else Some(LastWins(EntriesOf(ps).value))
  {
    hide Row, DictItems, EntriesOf, AllParts, LastWins;
    var ts := [TDict] + Row(ps) + [TEndDict];
    assert ts[1..] == Row(ps) + [TEndDict];
    NothingWins();
    EntriesAre(ts, 1, ps, []);
    assert EntriesOf(ps).Some? ==> [] + EntriesOf(ps).value == EntriesOf(ps).value;
  }

  // ----- every container is a row of parts -----

  lemma {:induction false} Parts(ts: seq<Token>, i: nat, n: nat, open: seq<Container>) returns (ps: seq<seq<Token>>)
    requires Nests(ts) && i <= n <= |ts| && OpenAt(ts, i) == OpenAt(ts, n) == open
    requires forall k :: i <= k <= n ==> open <= OpenAt(ts, k)
    ensures Row(ps) == ts[i..n] && AllParts(ps)
    decreases n - i
  {
    if i == n {
      ps := [];
    } else {
      hide Nests, OpenAt, Row, IsPart;
      NoEndHere(ts, i, open);
      var e := PartHere(ts, i, n, open);
      var rest := Parts(ts, e + 1, n, open);
      ps := [ts[i..e + 1]] + rest;
      RowOf(ts[i..e + 1], rest);
      assert ts[i..e + 1] + ts[e + 1..n] == ts[i..n];
    }
  }

  lemma {:induction false} RowOf(p: seq<Token>, rest: seq<seq<Token>>)
    ensures Row([p] + rest) == p + Row(rest)
  {
    assert ([p] + rest)[1..] == rest;
  }

  lemma {:induction false} PartHere(ts: seq<Token>, i: nat, n: nat, open: seq<Container>) returns (e: nat)
    requires Nests(ts) && i < n <= |ts| && OpenAt(ts, i) == OpenAt(ts, n) == open && !IsEnd(ts[i])
    requires forall k :: i <= k <= n ==> open <= OpenAt(ts, k)
    ensures i <= e < n && IsPart(ts[i..e + 1]) && OpenAt(ts, e + 1) == open
  {
    if ts[i].TList? || ts[i].TDict? {
      e := FindClose(ts, i, open, n);
      assert e < n;
      ClosedIsEnclosed(ts, open, i, e);
    } else {
      e := i;
      NextOpen(ts, i);
      hide Nests, OpenAt, Enclosed;
    }
  }

  lemma {:induction false} ContainerIsRow(w: seq<Token>) returns (ps: seq<seq<Token>>)
    requires Enclosed(w)
    ensures AllParts(ps) && (w == [TList] + Row(ps) + [TEndList] || w == [TDict] + Row(ps) + [TEndDict])
  {
    var n := |w| - 1;
    StartsNest(w);
    FirstOpens(w);
    forall k | 1 <= k <= n
      ensures OpenAt(w, 1) <= OpenAt(w, k)
    {
      BottomStays(w, k);
    }
    var open := OpenAt(w, 1);
    LastCloses(w, open);
    hide Enclosed, Nests, OpenAt, Row, AllParts;
    ps := Parts(w, 1, n, open);
    assert w == [w[0]] + w[1..n] + [w[n]];
  }

  lemma {:induction false} LastCloses(w: seq<Token>, open: seq<Container>)
    requires Enclosed(w) && Nests(w) && OpenAt(w, 1) == open && |open| == 1 && open <= OpenAt(w, |w| - 1)
    ensures OpenAt(w, |w| - 1) == open && w[|w| - 1] == if open[0].InList? then TEndList else TEndDict
  {
    assert w[..|w|] == w;
    NextOpen(w, |w| - 1);
    hide Nests;
  }

  // ----- the tokenizer, for any tokens that nest -----

  // What a token is written as, and what stands for it.
  ghost function TokenText(t: Token): bytes {
    match t
    case TString(s) => EncodeStr(s)
    case TInteger(text) => ['i' as int] + text + ['e' as int]
    case TList => ['l' as int]
    case TDict => ['d' as int]
    case _ => ['e' as int]
  }

  ghost function TokensText(ts: seq<Token>): bytes {
    if ts == [] then [] else TokenText(ts[0]) + TokensText(ts[1..])
  }

  // A string has an int length, and between i and e there is no other e.
  ghost predicate Writable(t: Token) {
    (t.TString? ==> |t.value| < INT64_LIMIT) && (t.TInteger? ==> 'e' as int !in t.text)
  }

  lemma {:induction false} IntegerIsRead(data: bytes, i: nat, t: bytes, stack: seq<Container>)
    requires At(data, i, ['i' as int] + t + ['e' as int]) && 'e' as int !in t
    ensures Lex(data, i, stack) == Prepend([TInteger(t)], Lex(data, i + |t| + 2, stack))
  {
    hide Lex, Find;
    assert ['i' as int] + t + ['e' as int] == ['i' as int] + (t + ['e' as int]);
    AtSplit(data, i, ['i' as int], t + ['e' as int]);
    AtFirst(data, i, ['i' as int]);
    FindStops(data, i + 1, t, 'e' as int);
    AtSplit(data, i + 1, t, ['e' as int]);
    assert data[i + 1..i + 1 + |t|] == t && i + 1 + |t| < |data|;
    hide At;
    LexIntText(data, i, t, stack);
  }

  lemma {:induction false} BracketIsRead(data: bytes, i: nat, t: Token, stack: seq<Container>)
    requires i < |data| && !t.TString? && !t.TInteger? && data[i] == TokenText(t)[0] && NestOne(stack, t).Some?
    ensures Lex(data, i, stack) == Prepend([t], Lex(data, i + 1, NestOne(stack, t).value))
  {
    hide Find, HeaderLength, Prepend;
  }

  lemma {:induction false} TextOf(t: Token)
    ensures t.TString? ==> TokenText(t) == EncodeStr(t.value)
    ensures t.TInteger? ==> TokenText(t) == ['i' as int] + t.text + ['e' as int] && |TokenText(t)| == |t.text| + 2
    ensures !t.TString? && !t.TInteger? ==> |TokenText(t)| == 1
  {
    hide EncodeStr;
  }

  lemma {:induction false} Writes(t: Token)
    requires Writable(t)
    ensures (t.TString? ==> |t.value| < INT64_LIMIT) && (t.TInteger? ==> 'e' as int !in t.text)
  {
  }

  lemma {:induction false} TokenIsRead(data: bytes, i: nat, t: Token, stack: seq<Container>)
    requires At(data, i, TokenText(t)) && Writable(t) && NestOne(stack, t).Some?
    ensures Lex(data, i, stack) == Prepend([t], Lex(data, i + |TokenText(t)|, NestOne(stack, t).value))
  {
    hide *;
    TextOf(t);
    Writes(t);
    Leaves(stack, t);
    if t.TString? {
      LexStr(data, i, t.value, stack);
    } else if t.TInteger? {
      IntegerIsRead(data, i, t.text, stack);
    } else {
      AtFirst(data, i, TokenText(t));
      BracketIsRead(data, i, t, stack);
    }
  }

  lemma {:induction false} Leaves(stack: seq<Container>, t: Token)
    ensures t.TString? || t.TInteger? ==> NestOne(stack, t) == Some(stack)
  {
  }

  lemma {:induction false} TokensAreRead(data: bytes, i: nat, ts: seq<Token>, stack: seq<Container>)
    requires At(data, i, TokensText(ts)) && (forall t :: t in ts ==> Writable(t)) && Nest(stack, ts).Some?
    ensures Lex(data, i, stack) == Prepend(ts, Lex(data, i + |TokensText(ts)|, Nest(stack, ts).value))
    decreases |ts|
  {
    hide Lex, TokenText, Writable, Nest, NestOne;
    if ts == [] {
      NoTokens(Lex(data, i, stack));
      NestNone(stack);
    } else {
      var t, rest := ts[0], ts[1..];
      assert ts == [t] + rest;
      NestAppend(stack, [t], rest);
      NestSingle(stack, t);
      AtSplit(data, i, TokenText(t), TokensText(rest));
      hide At;
      TokenIsRead(data, i, t, stack);
      var next := NestOne(stack, t).value;
      TokensAreRead(data, i + |TokenText(t)|, rest, next);
      PrependPrepend([t], rest, Lex(data, i + |TokensText(ts)|, Nest(next, rest).value));
    }
  }

  // Every row of tokens that nests is read back from its text.
  lemma {:induction false} TokensReadBack(ts: seq<Token>)
    requires Nest([], ts).Some? && forall t :: t in ts ==> Writable(t)
    ensures Lex(TokensText(ts), 0, []) == Tokens(ts)
  {
    var data := TokensText(ts);
    assert Lex(data, |data|, Nest([], ts).value) == Tokens([]) && At(data, 0, data);
    assert ts + [] == ts;
    hide Lex, TokensText, Nest, Writable;
    TokensAreRead(data, 0, ts, []);
  }

  lemma {:induction false} NestNone(stack: seq<Container>)
    ensures Nest(stack, []) == Some(stack)
  {
  }

  // ----- any input -----

  // The input has the tokens of one dictionary, with these parts.
  ghost predicate IsDictionaryOf(data: bytes, ps: seq<seq<Token>>) {
    AllParts(ps) && Lex(data, 0, []) == Tokens([TDict] + Row(ps) + [TEndDict])
  }

  // An input is accepted if and only if it has the tokens of one dictionary and its
  // parts are entries; then it is those, of equal keys the last. Otherwise it is an
  // error, or a panic if the tokenizer panics or finds nothing.
  lemma {:induction false} AcceptedExactlyWhen(data: bytes)
    ensures Parse(data).Parsed? <==> exists ps :: IsDictionaryOf(data, ps) && EntriesOf(ps).Some?
    ensures forall ps :: IsDictionaryOf(data, ps) ==>
              Parse(data) == if EntriesOf(ps).None? then ParseError else Parsed(LastWins(EntriesOf(ps).value))
    ensures Parse(data) == ParsePanics <==> Lex(data, 0, []) == LexPanics || Lex(data, 0, []) == Tokens([])
  {
    hide Lex, ParseDict, EntriesOf, LastWins, AllParts, Row;
    forall ps | IsDictionaryOf(data, ps)
      ensures Parse(data) == if EntriesOf(ps).None? then ParseError else Parsed(LastWins(EntriesOf(ps).value))
    {
      DictIsParsed(ps);
    }
    if Parse(data).Parsed? {
      var ps := AcceptedIsRow(data);
      assert IsDictionaryOf(data, ps);
    }
  }

  lemma {:induction false} AcceptedIsRow(data: bytes) returns (ps: seq<seq<Token>>)
    requires Parse(data).Parsed?
    ensures IsDictionaryOf(data, ps)
  {
    AcceptedNests(data);
    hide *;
    ps := ContainerIsRow(Lex(data, 0, []).tokens);
    DictionaryFirst(data, ps);
  }

  lemma {:induction false} DictionaryFirst(data: bytes, ps: seq<seq<Token>>)
    requires Lex(data, 0, []).Tokens? && AllParts(ps)
    requires var ts := Lex(data, 0, []).tokens;
             ts != [] && ts[0] == TDict && (ts == [TList] + Row(ps) + [TEndList] || ts == [TDict] + Row(ps) + [TEndDict])
    ensures IsDictionaryOf(data, ps)
  {
    hide Lex, AllParts, Row;
  }
}
