// What the parser accepts among tokens that nest: one dictionary, opened by the first
// token and closed by the last.
module BencodeNesting {
  import opened Common
  import opened BencodeSpec
  import opened BencodeRoundTrip

  // Every start of the tokens nests, as it does for what the tokenizer returns.
  ghost predicate Nests(ts: seq<Token>) {
    forall k :: 0 <= k <= |ts| ==> Nest([], ts[..k]).Some?
  }

  // The containers open after the first k tokens.
  ghost function OpenAt(ts: seq<Token>, k: nat): seq<Container>
    requires Nests(ts) && k <= |ts|
  {
    Nest([], ts[..k]).value
  }

  predicate IsEnd(t: Token) {
    t.TEndList? || t.TEndDict?
  }

  lemma {:induction false} StartsNest(ts: seq<Token>)
    requires Nest([], ts).Some?
    ensures Nests(ts)
  {
    forall k | 0 <= k <= |ts|
      ensures Nest([], ts[..k]).Some?
    {
      assert ts == ts[..k] + ts[k..];
      NestAppend([], ts[..k], ts[k..]);
    }
  }

  lemma {:induction false} NextOpen(ts: seq<Token>, k: nat)
    requires Nests(ts) && k < |ts|
    ensures NestOne(OpenAt(ts, k), ts[k]) == Some(OpenAt(ts, k + 1))
  {
    assert ts[..k + 1][..k] == ts[..k];
    assert Nest([], ts[..k + 1]).Some?;
  }

  // From position i to position n the containers in open stay open, and others with them.
  ghost predicate Above(ts: seq<Token>, open: seq<Container>, i: nat, n: nat)
    requires Nests(ts) && n <= |ts|
  {
    forall k :: i < k <= n ==> open < OpenAt(ts, k)
  }

  // ----- a part of the tokens, on its own -----

  // Where open stays open, the tokens nest without it.
  lemma {:induction false} Inner(ts: seq<Token>, open: seq<Container>, i: nat, n: nat)
    requires Nests(ts) && i <= n <= |ts| && OpenAt(ts, i) == open
    requires forall k :: i <= k <= n ==> open <= OpenAt(ts, k)
    ensures Nest([], ts[i..n]) == Some(OpenAt(ts, n)[|open|..])
  {
    if n == i {
      assert ts[i..n] == [] && open[|open|..] == [];
    } else {
      Inner(ts, open, i, n - 1);
      NextOpen(ts, n - 1);
      hide Nests, OpenAt, Nest;
      var w := ts[i..n];
      assert w[..|w| - 1] == ts[i..n - 1] && w[|w| - 1] == ts[n - 1];
      LastOf(w);
      WithoutBottom(open, OpenAt(ts, n - 1), ts[n - 1], OpenAt(ts, n));
    }
  }

  lemma {:induction false} LastOf(w: seq<Token>)
    requires w != [] && Nest([], w[..|w| - 1]).Some?
    ensures Nest([], w) == NestOne(Nest([], w[..|w| - 1]).value, w[|w| - 1])
  {
  }

  lemma {:induction false} WithoutBottom(open: seq<Container>, before: seq<Container>, t: Token, after: seq<Container>)
    requires open <= before && open <= after && NestOne(before, t) == Some(after)
    ensures NestOne(before[|open|..], t) == Some(after[|open|..])
  {
    var n := |open|;
    if IsEnd(t) {
      assert n < |before| && before[n..][..|before| - n - 1] == after[n..];
      assert before[n..][|before| - n - 1] == before[|before| - 1];
    } else if t.TDict? {
      assert after[n..] == before[n..] + [InDict];
    } else if t.TList? {
      assert after[n..] == before[n..] + [InList];
    }
  }

  // The tokens from i to n open a container with the first of them and leave it open.
  ghost predicate Unclosed(w: seq<Token>) {
    w != [] && Nests(w) && forall k :: 0 < k <= |w| ==> OpenAt(w, k) != []
  }

  lemma {:induction false} AboveIsUnclosed(ts: seq<Token>, open: seq<Container>, i: nat, n: nat)
    requires Nests(ts) && i < n <= |ts| && OpenAt(ts, i) == open && Above(ts, open, i, n)
    ensures Unclosed(ts[i..n])
  {
    var w := ts[i..n];
    forall k | 0 <= k <= |w|
      ensures Nest([], w[..k]).Some? && (k > 0 ==> Nest([], w[..k]).value != [])
    {
      assert w[..k] == ts[i..i + k];
      Inner(ts, open, i, i + k);
    }
  }

  // A part that closes what it opens with its last token.
  lemma {:induction false} ClosedIsEnclosed(ts: seq<Token>, open: seq<Container>, i: nat, e: nat)
    requires Nests(ts) && i < e < |ts| && OpenAt(ts, i) == open && Above(ts, open, i, e) && OpenAt(ts, e + 1) == open
    ensures Enclosed(ts[i..e + 1])
  {
    var w := ts[i..e + 1];
    Inner(ts, open, i, e + 1);
    assert open[|open|..] == [];
    forall k | 0 < k < |w|
      ensures Nest([], w[..k]).Some? && Nest([], w[..k]).value != []
    {
      assert w[..k] == ts[i..i + k];
      Inner(ts, open, i, i + k);
    }
  }

  // ----- a container that is not closed -----

  lemma {:induction false} UnclosedOpens(w: seq<Token>)
    requires Unclosed(w)
    ensures w[0] == TList || w[0] == TDict
    ensures OpenAt(w, 1) == [if w[0] == TList then InList else InDict]
  {
    assert w[..1] == [w[0]];
    NestSingle([], w[0]);
    assert [] + [InList] == [InList] && [] + [InDict] == [InDict];
    assert OpenAt(w, 1) != [];
  }

  lemma {:induction false} BottomKept(w: seq<Token>, k: nat)
    requires Unclosed(w) && 1 <= k <= |w|
    ensures OpenAt(w, 1) != [] && OpenAt(w, k) != [] && OpenAt(w, k)[0] == OpenAt(w, 1)[0]
  {
    if k > 1 {
      BottomKept(w, k - 1);
      NextOpen(w, k - 1);
      assert OpenAt(w, k) != [];
      hide OpenAt, Unclosed, Nests;
    } else {
      assert OpenAt(w, 1) != [];
    }
  }

  // The loop that looks for its end runs to the last token.
  lemma {:induction false} ScanRunsOut(ts: seq<Token>, i: nat, w: seq<Token>, k: nat, count: int)
    requires Unclosed(w) && i + |w| == |ts| - 1 && ts[i..i + |w|] == w && 1 <= k <= |w|
    requires count == Kinds(OpenAt(w, k), if w[0] == TList then InList else InDict)
    ensures ScanMatch(ts, i + k, w[0], if w[0] == TList then TEndList else TEndDict, count) == i + |w|
    decreases |w| - k
  {
    if k < |w| {
      CountGoesOn(w, k);
      assert ts[i + k] == ts[i..i + |w|][k];
      var kind := if w[0] == TList then InList else InDict;
      hide Unclosed, OpenAt, Nests, Kinds;
      ScanRunsOut(ts, i, w, k + 1, Kinds(OpenAt(w, k + 1), kind));
    }
  }

  // The number of open containers of the first one's kind stays positive.
  lemma {:induction false} CountGoesOn(w: seq<Token>, k: nat)
    requires Unclosed(w) && 1 <= k < |w|
    ensures var kind := if w[0] == TList then InList else InDict;
            && 1 <= Kinds(OpenAt(w, k), kind)
            && Kinds(OpenAt(w, k + 1), kind)
            == if w[k] == w[0] then Kinds(OpenAt(w, k), kind) + 1
               else if w[k] == (if w[0] == TList then TEndList else TEndDict) then Kinds(OpenAt(w, k), kind) - 1
               else Kinds(OpenAt(w, k), kind)
  {
    var kind := if w[0] == TList then InList else InDict;
    UnclosedOpens(w);
    BottomKept(w, k);
    NextOpen(w, k);
    hide Unclosed, OpenAt, Kinds, NestOne, Nests;
    KindsPositive(OpenAt(w, k), kind);
    KindsNext(OpenAt(w, k), w[k], kind);
  }

  lemma {:induction false} UnclosedRunsOut(ts: seq<Token>, i: nat)
    requires i < |ts| - 1 && Unclosed(ts[i..|ts| - 1])
    ensures MatchEnd(ts, i) == |ts| - 2 && (ts[i] == TList || ts[i] == TDict)
  {
    var w := ts[i..|ts| - 1];
    UnclosedOpens(w);
    assert ts[i] == w[0];
    var kind := if w[0] == TList then InList else InDict;
    assert [kind][..0] == [] && Kinds([kind], kind) == 1;
    hide Unclosed, Nests, OpenAt;
    ScanRunsOut(ts, i, w, 1, 1);
  }

  // Where the container that token i opens is closed, or n if that is not before n.
  lemma {:induction false} FindClose(ts: seq<Token>, i: nat, open: seq<Container>, n: nat) returns (e: nat)
    requires Nests(ts) && i < n <= |ts| && OpenAt(ts, i) == open && (ts[i].TList? || ts[i].TDict?)
    requires forall k :: i <= k <= n ==> open <= OpenAt(ts, k)
    ensures i < e <= n && Above(ts, open, i, e) && (e < n ==> OpenAt(ts, e + 1) == open)
  {
    NextOpen(ts, i);
    hide Nests, OpenAt;
    e := i + 1;
    while e < n && OpenAt(ts, e + 1) != open
      invariant i < e <= n && Above(ts, open, i, e)
    {
      e := e + 1;
    }
  }

  // ----- the loops of the parser -----

  lemma {:induction false} ClosedIsPassed(ts: seq<Token>, open: seq<Container>, i: nat, e: nat)
    requires Nests(ts) && 1 <= i < e < |ts| - 1 && OpenAt(ts, i) == open && Above(ts, open, i, e) && OpenAt(ts, e + 1) == open
    requires ts[i].TList? || ts[i].TDict?
    ensures ParseAt(ts, i).Some? ==> ParseAt(ts, i).value.1 == e
  {
    ClosedIsEnclosed(ts, open, i, e);
    hide Nests, OpenAt, Above, Enclosed, ParseList, ParseDict, MatchEnd;
    MatchEndIsTheEnd(ts, i, ts[i..e + 1]);
  }

  // A value that starts at token i ends where the open containers are the same again.
  lemma {:induction false} Advance(ts: seq<Token>, i: nat, open: seq<Container>) returns (e: nat)
    requires Nests(ts) && 1 <= i < |ts| - 1 && OpenAt(ts, i) == open && !IsEnd(ts[i])
    requires forall k :: i <= k < |ts| ==> open <= OpenAt(ts, k)
    ensures ParseAt(ts, i).Some? ==> i <= e < |ts| - 1 && ParseAt(ts, i).value.1 == e && OpenAt(ts, e + 1) == open
    decreases |ts|, 0
  {
    e := i;
    if ts[i].TList? || ts[i].TDict? {
      e := FindClose(ts, i, open, |ts| - 1);
      if e < |ts| - 1 {
        ClosedIsPassed(ts, open, i, e);
      } else {
        UnclosedIsNoValue(ts, i, open);
      }
    } else {
      NextOpen(ts, i);
      hide Nests, OpenAt;
    }
  }

  lemma {:induction false} UnclosedIsNoValue(ts: seq<Token>, i: nat, open: seq<Container>)
    requires Nests(ts) && 1 <= i < |ts| - 1 && OpenAt(ts, i) == open && Above(ts, open, i, |ts| - 1)
    requires ts[i].TList? || ts[i].TDict?
    ensures ParseAt(ts, i) == None
    decreases |ts| - 1, |ts| + 2
  {
    AboveIsUnclosed(ts, open, i, |ts| - 1);
    UnclosedRunsOut(ts, i);
    UnclosedIsRefused(ts[i..|ts| - 1]);
    hide Nests, OpenAt, Above, Unclosed, ParseList, ParseDict, MatchEnd;
  }

  // A container without its end is refused.
  lemma {:induction false} UnclosedIsRefused(w: seq<Token>)
    requires Unclosed(w)
    ensures w[0] == TDict ==> ParseDict(w) == None
    ensures w[0] == TList ==> ParseList(w) == None
    decreases |w|, |w| + 1
  {
    UnclosedOpens(w);
    if |w| > 1 && IsEnd(w[|w| - 1]) {
      forall k | 1 <= k <= |w|
        ensures OpenAt(w, 1) <= OpenAt(w, k)
      {
        BottomKept(w, k);
      }
      hide Nests, OpenAt, ListItems, DictItems;
      ItemsRefused(w, 1, OpenAt(w, 1));
      EntriesRefused(w, 1, OpenAt(w, 1), map[]);
    }
  }

  lemma {:induction false} NoEndHere(ts: seq<Token>, i: nat, open: seq<Container>)
    requires Nests(ts) && i < |ts| && OpenAt(ts, i) == open && open <= OpenAt(ts, i + 1)
    ensures !IsEnd(ts[i])
  {
    NextOpen(ts, i);
    hide Nests, OpenAt;
  }

  // With nothing but whole values in front of it the last end is never reached.
  lemma {:induction false} ItemsRefused(ts: seq<Token>, i: nat, open: seq<Container>)
    requires Nests(ts) && 1 <= i < |ts| && OpenAt(ts, i) == open && IsEnd(ts[|ts| - 1])
    requires forall k :: i <= k <= |ts| ==> open <= OpenAt(ts, k)
    ensures ListItems(ts, i) == None
    decreases |ts|, |ts| - i
  {
    hide Nests, OpenAt, ParseAt;
    NoEndHere(ts, i, open);
    var e := Advance(ts, i, open);
    if ParseAt(ts, i).Some? {
      ItemsRefused(ts, e + 1, open);
    }
  }

  lemma {:induction false} EntriesRefused(ts: seq<Token>, i: nat, open: seq<Container>, dict: map<bytes, Value>)
    requires Nests(ts) && 1 <= i < |ts| && OpenAt(ts, i) == open && IsEnd(ts[|ts| - 1])
    requires forall k :: i <= k <= |ts| ==> open <= OpenAt(ts, k)
    ensures DictItems(ts, i, dict) == None
    decreases |ts|, |ts| - i
  {
    hide Nests, OpenAt, ParseAt;
    NoEndHere(ts, i, open);
    if ts[i].TString? {
      KeyKeeps(ts, i);
      NoEndHere(ts, i + 1, open);
      var e := Advance(ts, i + 1, open);
      if ParseAt(ts, i + 1).Some? {
        EntriesRefused(ts, e + 1, open, dict[ts[i].value := ParseAt(ts, i + 1).value.0]);
      }
    }
  }

  lemma {:induction false} KeyKeeps(ts: seq<Token>, i: nat)
    requires Nests(ts) && i < |ts| && ts[i].TString?
    ensures OpenAt(ts, i + 1) == OpenAt(ts, i)
  {
    NextOpen(ts, i);
    hide Nests, OpenAt;
  }

  // ----- the whole -----

  lemma {:induction false} ClosingIsEnd(ts: seq<Token>, c: nat)
    requires Nests(ts) && c < |ts| && OpenAt(ts, c) != [] && OpenAt(ts, c + 1) == []
    ensures IsEnd(ts[c]) && |OpenAt(ts, c)| == 1
  {
    NextOpen(ts, c);
    hide Nests, OpenAt;
  }

  // Tokens behind the end of the first container are refused.
  lemma {:induction false} ClosedEarlyIsRefused(ts: seq<Token>, i: nat, open: seq<Container>, c: nat, dict: map<bytes, Value>)
    requires Nests(ts) && 1 <= i <= c < |ts| - 1 && OpenAt(ts, i) == open != [] && IsEnd(ts[|ts| - 1])
    requires OpenAt(ts, c + 1) == [] && forall k :: i <= k <= c ==> open <= OpenAt(ts, k)
    ensures DictItems(ts, i, dict) == None
    decreases |ts| - i
  {
    hide Nests, OpenAt, ParseAt, Above;
    ClosingIsEnd(ts, c);
    if i < c && ts[i].TString? {
      KeyKeeps(ts, i);
      if i + 1 == c {
        EntriesRefused(ts, c + 1, [], dict);
      } else {
        NoEndHere(ts, i + 1, open);
        var e := AdvanceTo(ts, i + 1, open, c);
        if ParseAt(ts, i + 1).Some? {
          ClosedEarlyIsRefused(ts, e + 1, open, c, dict[ts[i].value := ParseAt(ts, i + 1).value.0]);
        }
      }
    }
  }

  lemma {:induction false} AdvanceTo(ts: seq<Token>, i: nat, open: seq<Container>, c: nat) returns (e: nat)
    requires Nests(ts) && 1 <= i < c < |ts| - 1 && OpenAt(ts, i) == open != [] && !IsEnd(ts[i])
    requires OpenAt(ts, c) != [] && OpenAt(ts, c + 1) == [] && forall k :: i <= k <= c ==> open <= OpenAt(ts, k)
    ensures ParseAt(ts, i).Some? ==> i <= e < c && ParseAt(ts, i).value.1 == e && OpenAt(ts, e + 1) == open
  {
    e := i;
    if ts[i].TList? || ts[i].TDict? {
      e := FindClose(ts, i, open, c);
      ClosingIsEnd(ts, c);
      OneIsSmallest(open, OpenAt(ts, c));
      ClosedIsPassed(ts, open, i, e);
    } else {
      NextOpen(ts, i);
      hide Nests, OpenAt;
    }
  }

  lemma {:induction false} OneIsSmallest(open: seq<Container>, now: seq<Container>)
    requires open != [] && |now| == 1
    ensures !(open < now)
  {
  }

  // Of tokens that nest the parser accepts only a dictionary that is opened by the
  // first and closed by the last.
  lemma {:induction false} AcceptedIsOneDictionary(ts: seq<Token>)
    requires ts != [] && Nest([], ts).Some? && ParseDict(ts).Some?
    ensures ts[0] == TDict && Enclosed(ts)
  {
    StartsNest(ts);
    assert ts[..0] == [] && OpenAt(ts, 0) == [];
    var e := FindClose(ts, 0, [], |ts|);
    assert forall k :: 0 < k <= e ==> OpenAt(ts, k) != [];
    if e == |ts| {
      UnclosedIsRefused(ts);
    } else if e < |ts| - 1 {
      hide Nests, OpenAt, DictItems;
      OneStaysOpen(ts, e);
      ClosedEarlyIsRefused(ts, 1, OpenAt(ts, 1), e, map[]);
    } else {
      ClosedIsEnclosed(ts, [], 0, e);
      assert ts[0..e + 1] == ts;
    }
  }

  lemma {:induction false} OneStaysOpen(ts: seq<Token>, c: nat)
    requires Nests(ts) && 1 <= c < |ts| && forall k :: 0 < k <= c ==> OpenAt(ts, k) != []
    ensures forall k :: 1 <= k <= c ==> OpenAt(ts, 1) <= OpenAt(ts, k)
  {
    var w := ts[..c];
    forall k | 0 <= k <= c
      ensures Nest([], w[..k]).Some? && Nest([], w[..k]).value == OpenAt(ts, k)
    {
      assert w[..k] == ts[..k];
    }
    UnclosedOpens(w);
    forall k | 1 <= k <= c
      ensures OpenAt(ts, 1) <= OpenAt(ts, k)
    {
      BottomKept(w, k);
    }
  }
}
