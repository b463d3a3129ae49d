// What encodings look like, byte by byte.
module BencodeFormat {
  import opened Common
  import opened BencodeSpec
  import opened BencodeText
  import opened BencodeInputs

  // A string stands behind its length and a colon, an integer between i and e, the
  // items of a list between l and e.
  lemma {:induction false} EncodedForm(v: Value)
    ensures v.Str? ==> Encode(v) == Decimal(|v.s|) + [':' as int] + v.s
    ensures v.Int? ==> Encode(v) == ['i' as int] + IntText(v.n) + ['e' as int]
    ensures v.List? ==> Encode(v) == ['l' as int] + Joined(v.items) + ['e' as int]
  {
    if v.List? {
      ItemsJoined(v, |v.items|);
      assert v.items[..|v.items|] == v.items;
    }
  }

  ghost function Joined(vs: seq<Value>): bytes {
    if vs == [] then [] else Joined(vs[..|vs| - 1]) + Encode(vs[|vs| - 1])
  }

  lemma {:induction false} ItemsJoined(v: Value, k: nat)
    requires v.List? && k <= |v.items|
    ensures EncodeItems(v, k) == Joined(v.items[..k])
  {
    if k > 0 {
      ItemsJoined(v, k - 1);
      assert v.items[..k][..k - 1] == v.items[..k - 1];
      hide Encode;
    }
  }

  // A dictionary is the list of its entries between d and e, each key once, in byte
  // order.
  lemma {:induction false} DictionaryForm(v: Value) returns (es: Entries)
    requires v.Dict?
    ensures Encode(v) == Opened(es, ['e' as int])
    ensures forall i, j :: 0 <= i < j < |es| ==> Less(es[i].0, es[j].0)
    ensures forall k :: k in v.entries <==> exists i :: 0 <= i < |es| && es[i].0 == k
    ensures forall i :: 0 <= i < |es| ==> es[i].0 in v.entries && es[i].1 == v.entries[es[i].0]
  {
    hide EncodeEntries, EntryText, SortedKeys, Encode, Less, Pairs;
    var keys := SortedKeys(v.entries.Keys);
    es := Pairs(v, keys);
    PairsText(v, keys);
    DictionaryIs(v);
    forall k | k in v.entries
      ensures exists i :: 0 <= i < |es| && es[i].0 == k
    {
      var i :| 0 <= i < |keys| && keys[i] == k;
      assert es[i].0 == k;
    }
  }

  lemma {:induction false} DictionaryIs(v: Value)
    requires v.Dict?
    ensures Encode(v) == ['d' as int] + EncodeEntries(v, SortedKeys(v.entries.Keys)) + ['e' as int]
  {
    hide SortedKeys, EncodeEntries;
  }

  ghost function Pairs(v: Value, keys: seq<bytes>): (es: Entries)
    requires v.Dict? && forall k :: k in keys ==> k in v.entries
    ensures |es| == |keys| && forall i :: 0 <= i < |es| ==> es[i] == (keys[i], v.entries[keys[i]])
  {
    seq(|keys|, i requires 0 <= i < |keys| => (keys[i], v.entries[keys[i]]))
  }

  lemma {:induction false} PairsText(v: Value, keys: seq<bytes>)
    requires v.Dict? && forall k :: k in keys ==> k in v.entries
    ensures EntryText(Pairs(v, keys)) == EncodeEntries(v, keys)
  {
    if keys != [] {
      var before := keys[..|keys| - 1];
      PairsText(v, before);
      assert Pairs(v, keys)[..|keys| - 1] == Pairs(v, before);
      hide Encode, EncodeStr, Pairs;
    }
  }

  // ----- an example -----

  const ANNOUNCE: bytes := [97, 110, 110, 111, 117, 110, 99, 101]
  const ANNOUNCE_LIST: bytes := ANNOUNCE + [45, 108, 105, 115, 116]

  function TwoTrackers(): Value {
    Dict(map[ANNOUNCE := Str([117]), ANNOUNCE_LIST := List([])])
  }

  // A key stands in front of its own extensions.
  lemma {:induction false} AnnounceComesFirst()
    ensures Spells(Encode(TwoTrackers()), "d" + "8:announce" + "1:u" + "13:announce-list" + "le" + "e")
  {
    var v, keys := TwoTrackers(), [ANNOUNCE, ANNOUNCE_LIST];
    TwoKeys();
    SortedOnce(SortedKeys(v.entries.Keys), keys, v.entries.Keys);
    hide *;
    TwoEntries(keys);
    WholeText(keys);
  }

  lemma {:induction false} TwoKeys()
    ensures Lists([ANNOUNCE, ANNOUNCE_LIST], TwoTrackers().entries.Keys)
  {
    LessIsByteOrder(ANNOUNCE, ANNOUNCE_LIST);
    assert ANNOUNCE_LIST[..|ANNOUNCE|] == ANNOUNCE;
    hide Less;
  }

  lemma {:induction false} Values()
    ensures Encode(Str([117])) == [49, 58, 117] && Encode(List([])) == [108, 101]
    ensures EncodeStr(ANNOUNCE) == [56, 58] + ANNOUNCE && EncodeStr(ANNOUNCE_LIST) == [49, 51, 58] + ANNOUNCE_LIST
  {
    assert Decimal(13) == Decimal(1) + [51];
  }

  function TextOfTwo(): bytes {
    [56, 58] + ANNOUNCE + [49, 58, 117] + [49, 51, 58] + ANNOUNCE_LIST + [108, 101]
  }

  lemma {:induction false} TwoEntries(keys: seq<bytes>)
    requires keys == [ANNOUNCE, ANNOUNCE_LIST]
    ensures (forall k :: k in keys ==> k in TwoTrackers().entries) && EncodeEntries(TwoTrackers(), keys) == TextOfTwo()
  {
    var v := TwoTrackers();
    assert ANNOUNCE != ANNOUNCE_LIST;
    assert v.entries[ANNOUNCE] == Str([117]) && v.entries[ANNOUNCE_LIST] == List([]);
    assert keys[..1] == [ANNOUNCE] && [ANNOUNCE][..0] == [];
    Values();
    hide Encode, EncodeStr;
    assert EncodeEntries(v, [ANNOUNCE]) == EncodeStr(ANNOUNCE) + Encode(Str([117]));
    assert EncodeEntries(v, keys) == EncodeEntries(v, [ANNOUNCE]) + EncodeStr(ANNOUNCE_LIST) + Encode(List([]));
  }

  lemma {:induction false} WholeText(keys: seq<bytes>)
    requires SortedKeys(TwoTrackers().entries.Keys) == keys
    requires (forall k :: k in keys ==> k in TwoTrackers().entries) && EncodeEntries(TwoTrackers(), keys) == TextOfTwo()
    ensures Spells(Encode(TwoTrackers()), "d" + "8:announce" + "1:u" + "13:announce-list" + "le" + "e")
  {
    hide SortedKeys, EncodeEntries;
    assert Encode(TwoTrackers()) == [100] + TextOfTwo() + [101];
    hide Encode, TwoTrackers;
    Pieces();
    var a, b, c, d, e := [56, 58] + ANNOUNCE, [49, 58, 117], [49, 51, 58] + ANNOUNCE_LIST, [108, 101], [101];
    assert [100] + TextOfTwo() + [101] == [100] + a + b + c + d + e;
    hide *;
    SpellsOn([100], "d", a, "8:announce");
    SpellsOn([100] + a, "d" + "8:announce", b, "1:u");
    SpellsOn([100] + a + b, "d" + "8:announce" + "1:u", c, "13:announce-list");
    SpellsOn([100] + a + b + c, "d" + "8:announce" + "1:u" + "13:announce-list", d, "le");
    SpellsOn([100] + a + b + c + d, "d" + "8:announce" + "1:u" + "13:announce-list" + "le", e, "e");
  }

  lemma {:induction false} SpellsOn(a: bytes, s: string, b: bytes, t: string)
    requires Spells(a, s) && Spells(b, t)
    ensures Spells(a + b, s + t)
  {
  }

  lemma {:induction false} Pieces()
    ensures Spells([100], "d") && Spells([49, 58, 117], "1:u") && Spells([108, 101], "le") && Spells([101], "e")
    ensures Spells([56, 58] + ANNOUNCE, "8:announce") && Spells([49, 51, 58] + ANNOUNCE_LIST, "13:announce-list")
  {
  }
}
