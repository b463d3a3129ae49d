// The three lists of peer addresses: known, being connected to, connected.
module AddressSpec {
  import opened Common
  import opened PeerSpec

  datatype Addresses = Addresses(unconnected: seq<Address>, connecting: seq<Address>, connected: seq<Address>)

  function FindAddress(s: seq<Address>, x: Address): (k: nat)
    ensures k <= |s| && (k < |s| ==> s[k] == x)
    ensures forall j :: 0 <= j < k ==> s[j] != x
  {
    if s == [] || s[0] == x then 0 else 1 + FindAddress(s[1..], x)
  }

  // ----- the operations -----

  // An address from a tracker is new if no list has it.
  function LearnOne(a: Addresses, x: Address): Addresses {
    if x in a.connected || x in a.unconnected || x in a.connecting then a
    else a.(unconnected := a.unconnected + [x])
  }

  function Learn(a: Addresses, xs: seq<Address>): Addresses
    decreases |xs|
  {
    if xs == [] then a else LearnOne(Learn(a, xs[..|xs| - 1]), xs[|xs| - 1])
  }

  function StartConnecting(a: Addresses): Addresses {
    if a.unconnected == [] then a
    else a.(unconnected := a.unconnected[1..], connecting := a.connecting + [a.unconnected[0]])
  }

  function ConnectFailed(a: Addresses, x: Address): Addresses {
    var k := FindAddress(a.connecting, x);
    if k == |a.connecting| then a
    else a.(connecting := Without(a.connecting, k), unconnected := a.unconnected + [x])
  }

  function ConnectSucceeded(a: Addresses, x: Address): Addresses {
    var k := FindAddress(a.connecting, x);
    if k == |a.connecting| then a
    else a.(connecting := Without(a.connecting, k), connected := a.connected + [x])
  }

  // The address of a peer that is disconnected may be tried again.
  function Disconnected(a: Addresses, x: Address): Addresses {
    var k := FindAddress(a.connected, x);
    if k == |a.connected| then a
    else a.(connected := Without(a.connected, k), unconnected := a.unconnected + [x])
  }

  function Reaped(a: Addresses, k: nat): Addresses
    requires k < |a.connected|
  {
    a.(connected := Without(a.connected, k))
  }

  // ----- each address is in one place -----

  function Times(s: seq<Address>, x: Address): nat {
    if s == [] then 0 else (if s[0] == x then 1 else 0) + Times(s[1..], x)
  }

  function TimesInAll(a: Addresses, x: Address): nat {
    Times(a.unconnected, x) + Times(a.connecting, x) + Times(a.connected, x)
  }

  ghost predicate EachOnce(a: Addresses) {
    forall x :: TimesInAll(a, x) <= 1
  }

  lemma {:induction false} TimesAppend(a: seq<Address>, b: seq<Address>, x: Address)
    ensures Times(a + b, x) == Times(a, x) + Times(b, x)
  {
    if a == [] {
      assert a + b == b;
    } else {
      TimesAppend(a[1..], b, x);
      assert (a + b)[1..] == a[1..] + b;
    }
  }

  lemma {:induction false} TimesOne(y: Address, x: Address)
    ensures Times([y], x) == if y == x then 1 else 0
  {
    assert Times([y][1..], x) == 0;
  }

  lemma {:induction false} TimesWithout(s: seq<Address>, k: nat, x: Address)
    requires k < |s|
    ensures Times(s, x) == Times(Without(s, k), x) + if s[k] == x then 1 else 0
  {
    assert s == s[..k] + ([s[k]] + s[k + 1..]);
    TimesAppend(s[..k], [s[k]] + s[k + 1..], x);
    TimesAppend([s[k]], s[k + 1..], x);
    TimesAppend(s[..k], s[k + 1..], x);
    TimesOne(s[k], x);
  }

  lemma {:induction false} NotThere(s: seq<Address>, x: Address)
    requires x !in s
    ensures Times(s, x) == 0
  {
    if s != [] {
      NotThere(s[1..], x);
    }
  }

  lemma {:induction false} ThereCounts(s: seq<Address>, x: Address)
    requires x in s
    ensures Times(s, x) > 0
  {
    if s[0] != x {
      assert x in s[1..];
      ThereCounts(s[1..], x);
    }
  }

  lemma {:induction false} InNoList(a: Addresses, x: Address)
    ensures TimesInAll(a, x) == 0 <==> !(x in a.connected || x in a.unconnected || x in a.connecting)
  {
    if x in a.unconnected {
      ThereCounts(a.unconnected, x);
    } else if x in a.connecting {
      ThereCounts(a.connecting, x);
    } else if x in a.connected {
      ThereCounts(a.connected, x);
    } else {
      NotThere(a.unconnected, x);
      NotThere(a.connecting, x);
      NotThere(a.connected, x);
    }
  }

  lemma {:induction false} LearnOneAdds(a: Addresses, y: Address, x: Address)
    ensures TimesInAll(LearnOne(a, y), x) == if TimesInAll(a, x) == 0 && x == y then 1 else TimesInAll(a, x)
  {
    InNoList(a, y);
    TimesAppend(a.unconnected, [y], x);
    TimesOne(y, x);
    hide Times;
  }

  // Exactly the addresses that no list had are added, once each.
  lemma {:induction false} LearnAdds(a: Addresses, xs: seq<Address>, x: Address)
    ensures TimesInAll(Learn(a, xs), x) == if TimesInAll(a, x) == 0 && x in xs then 1 else TimesInAll(a, x)
    decreases |xs|
  {
    if xs != [] {
      var before, last := xs[..|xs| - 1], xs[|xs| - 1];
      LearnAdds(a, before, x);
      LearnOneAdds(Learn(a, before), last, x);
      assert x in xs <==> x in before || x == last by {
        assert xs == before + [last];
      }
      hide TimesInAll, LearnOne;
    }
  }

  lemma {:induction false} LearnKeeps(a: Addresses, xs: seq<Address>)
    requires EachOnce(a)
    ensures EachOnce(Learn(a, xs))
  {
    forall x
      ensures TimesInAll(Learn(a, xs), x) <= 1
    {
      LearnAdds(a, xs, x);
    }
  }

  // Connecting and disconnecting move addresses; none appears or disappears.
  lemma {:induction false} MovesKeep(a: Addresses, y: Address, x: Address)
    ensures TimesInAll(StartConnecting(a), x) == TimesInAll(a, x)
    ensures TimesInAll(ConnectFailed(a, y), x) == TimesInAll(a, x)
    ensures TimesInAll(ConnectSucceeded(a, y), x) == TimesInAll(a, x)
    ensures TimesInAll(Disconnected(a, y), x) == TimesInAll(a, x)
  {
    hide Times, FindAddress;
    TimesOne(y, x);
    TimesAppend(a.unconnected, [y], x);
    TimesAppend(a.connected, [y], x);
    if a.unconnected != [] {
      TimesOne(a.unconnected[0], x);
      TimesAppend(a.connecting, [a.unconnected[0]], x);
      TimesAppend([a.unconnected[0]], a.unconnected[1..], x);
      assert a.unconnected == [a.unconnected[0]] + a.unconnected[1..];
    }
    var k, m := FindAddress(a.connecting, y), FindAddress(a.connected, y);
    if k < |a.connecting| {
      TimesWithout(a.connecting, k, x);
    }
    if m < |a.connected| {
      TimesWithout(a.connected, m, x);
    }
  }

  // Where they go: from connecting to unconnected or connected, from connected to
  // unconnected, and from unconnected to connecting.
  lemma {:induction false} MovesWhere(a: Addresses, y: Address, x: Address)
    ensures var b, one := ConnectFailed(a, y), if x == y && y in a.connecting then 1 else 0;
            && Times(b.connecting, x) == Times(a.connecting, x) - one
            && Times(b.unconnected, x) == Times(a.unconnected, x) + one && b.connected == a.connected
    ensures var b, one := ConnectSucceeded(a, y), if x == y && y in a.connecting then 1 else 0;
            && Times(b.connecting, x) == Times(a.connecting, x) - one
            && Times(b.connected, x) == Times(a.connected, x) + one && b.unconnected == a.unconnected
    ensures var b, one := Disconnected(a, y), if x == y && y in a.connected then 1 else 0;
            && Times(b.connected, x) == Times(a.connected, x) - one
            && Times(b.unconnected, x) == Times(a.unconnected, x) + one && b.connecting == a.connecting
  {
    hide Times, FindAddress;
    TimesOne(y, x);
    TimesAppend(a.unconnected, [y], x);
    TimesAppend(a.connected, [y], x);
    FoundIfThere(a.connecting, y);
    FoundIfThere(a.connected, y);
    var k, m := FindAddress(a.connecting, y), FindAddress(a.connected, y);
    if k < |a.connecting| {
      TimesWithout(a.connecting, k, x);
    }
    if m < |a.connected| {
      TimesWithout(a.connected, m, x);
    }
  }

  lemma {:induction false} FoundIfThere(s: seq<Address>, x: Address)
    ensures FindAddress(s, x) < |s| <==> x in s
    ensures FindAddress(s, x) < |s| ==> s[FindAddress(s, x)] == x
  {
  }

  lemma {:induction false} ReapedKeeps(a: Addresses, k: nat, x: Address)
    requires k < |a.connected|
    ensures TimesInAll(Reaped(a, k), x) <= TimesInAll(a, x)
  {
    TimesWithout(a.connected, k, x);
  }

  lemma {:induction false} NoneIsEachOnce()
    ensures EachOnce(Addresses([], [], []))
  {
  }
}
