// The piece cache as an object: a list of elements and a map of nodes that point
// back to them.
module PieceCaches {
  import opened Common
  import opened CacheSpec

  // An element of the linked list that orders the cache.
  class Element {
    const Value: nat

    constructor (value: nat)
      ensures Value == value
    {
      Value := value;
    }
  }

  // A node belongs to the map alone, so replacing it is updating it in place.
  datatype CacheNode = CacheNode(val: bytes, keyPtr: Element)

  ghost predicate DistinctValues(queue: seq<Element>) {
    forall i, j :: 0 <= i < j < |queue| ==> queue[i].Value != queue[j].Value
  }

  // The list and the map hold the same keys, and each node points back to its
  // list element.
  ghost predicate Linked(queue: seq<Element>, items: map<nat, CacheNode>) {
    && |items| == |queue|
    && DistinctValues(queue)
    && (forall e :: e in queue ==> e.Value in items && items[e.Value].keyPtr == e)
    && (forall k :: k in items ==> items[k].keyPtr in queue && items[k].keyPtr.Value == k)
  }

  ghost function View(queue: seq<Element>, items: map<nat, CacheNode>): (c: Cache)
    requires forall e :: e in queue ==> e.Value in items
    ensures |c| == |queue|
    ensures forall i :: 0 <= i < |c| ==> c[i] == Entry(queue[i].Value, items[queue[i].Value].val)
  {
    seq(|queue|, i requires 0 <= i < |queue| => Entry(queue[i].Value, items[queue[i].Value].val))
  }

  lemma IndexInView(queue: seq<Element>, items: map<nat, CacheNode>, k: nat)
    requires Linked(queue, items)
    ensures Has(View(queue, items), k) <==> k in items
    ensures k in items ==>
              && items[k].keyPtr in queue && items[k].keyPtr.Value == k
              && View(queue, items)[Index(View(queue, items), k)] == Entry(k, items[k].val)
              && forall i :: 0 <= i < |queue| && queue[i] == items[k].keyPtr ==> i == Index(View(queue, items), k)
  {
    var c := View(queue, items);
    if k in items {
      var i :| 0 <= i < |queue| && queue[i] == items[k].keyPtr;
      assert c[i].key == k;
      var j := Index(c, k);
      assert queue[j].Value == k;
    } else {
      assert forall i :: 0 <= i < |c| ==> queue[i] in queue;
    }
  }

  lemma LinkedIsAsLong(queue: seq<Element>, items: map<nat, CacheNode>)
    requires Linked(queue, items)
    ensures |queue| == |items| && DistinctValues(queue)
    ensures forall k :: k in items ==> items[k].keyPtr.Value == k
    ensures forall e :: e in queue ==> e.Value in items
  {
  }

  // Moving element i to the front, together with a new value for its key.
  lemma LinkedMoved(queue: seq<Element>, items: map<nat, CacheNode>, i: nat, val: bytes, moved: seq<Element>)
    requires Linked(queue, items) && i < |queue| && moved == [queue[i]] + Without(queue, i)
    ensures Linked(moved, items[queue[i].Value := items[queue[i].Value].(val := val)])
  {
    Rearranged(queue, i);
    DistinctMoved(queue, i, moved);
    LinkedRenewed(queue, items, queue[i].Value, val, moved);
  }

  lemma DistinctMoved(queue: seq<Element>, i: nat, moved: seq<Element>)
    requires DistinctValues(queue) && i < |queue| && moved == [queue[i]] + Without(queue, i)
    ensures DistinctValues(moved)
  {
    assert forall m :: 0 <= m < |moved| ==> moved[m] == queue[if m == 0 then i else if m <= i then m - 1 else m];
  }

  lemma LinkedRenewed(queue: seq<Element>, items: map<nat, CacheNode>, k: nat, val: bytes, moved: seq<Element>)
    requires Linked(queue, items) && k in items
    requires |moved| == |queue| && DistinctValues(moved) && forall e :: e in moved <==> e in queue
    ensures Linked(moved, items[k := items[k].(val := val)])
  {
    var renewed := items[k := items[k].(val := val)];
    assert renewed.Keys == items.Keys;
    assert forall j :: j in items ==> renewed[j].keyPtr == items[j].keyPtr;
  }

  lemma Rearranged<T>(s: seq<T>, i: nat)
    requires i < |s|
    ensures forall e :: e in [s[i]] + Without(s, i) <==> e in s
  {
    assert s == s[..i] + [s[i]] + s[i + 1..];
  }

  lemma ViewMoved(queue: seq<Element>, items: map<nat, CacheNode>, i: nat, moved: seq<Element>, renewed: map<nat, CacheNode>)
    requires DistinctValues(queue) && i < |queue| && moved == [queue[i]] + Without(queue, i)
    requires forall e :: e in queue ==> e.Value in items && e.Value in renewed
    requires forall e :: e in moved ==> e.Value in renewed
    requires forall k :: k in items && k != queue[i].Value ==> k in renewed && renewed[k] == items[k]
    ensures View(moved, renewed) == [Entry(queue[i].Value, renewed[queue[i].Value].val)] + Without(View(queue, items), i)
  {
    var c := View(moved, renewed);
    var after := [Entry(queue[i].Value, renewed[queue[i].Value].val)] + Without(View(queue, items), i);
    forall m | 0 < m < |moved|
      ensures c[m] == after[m]
    {
      var from := if m <= i then m - 1 else m;
      assert moved[m] == queue[from] && after[m] == View(queue, items)[from];
      assert queue[from].Value != queue[i].Value;
    }
  }

  // Taking the last element out.
  lemma LinkedPopped(queue: seq<Element>, items: map<nat, CacheNode>, popped: seq<Element>, back: Element)
    requires Linked(queue, items) && queue == popped + [back]
    ensures Linked(popped, items - {back.Value}) && |items - {back.Value}| == |items| - 1
    ensures forall e :: e in popped ==> e.Value != back.Value
  {
    assert (items - {back.Value}).Keys == items.Keys - {back.Value};
    assert queue[|popped|] == back;
    assert forall i :: 0 <= i < |popped| ==> queue[i] == popped[i];
    assert forall e :: e in queue <==> e in popped || e == back;
  }

  lemma ViewPopped(queue: seq<Element>, items: map<nat, CacheNode>, popped: seq<Element>, back: Element)
    requires Linked(queue, items) && queue == popped + [back]
    requires Linked(popped, items - {back.Value})
    requires forall e :: e in popped ==> e.Value != back.Value
    ensures View(popped, items - {back.Value}) == View(queue, items)[..|queue| - 1]
  {
    var rest := items - {back.Value};
    var now, before := View(popped, rest), View(queue, items);
    forall i | 0 <= i < |popped|
      ensures now[i] == before[i]
    {
      assert popped[i] in popped && queue[i] == popped[i];
    }
    hide Linked, View;
    assert now == before[..|queue| - 1];
  }

  // Putting an element with a new key in front.
  lemma LinkedPushed(queue: seq<Element>, items: map<nat, CacheNode>, e: Element, val: bytes)
    requires Linked(queue, items) && e.Value !in items
    ensures Linked([e] + queue, items[e.Value := CacheNode(val, e)])
    ensures |items[e.Value := CacheNode(val, e)]| == |items| + 1
  {
    DistinctPushed(queue, e);
    PushedMembers(queue, e);
    GrownNodes(items, e, val);
    LinkedGrown(queue, items, [e] + queue, items[e.Value := CacheNode(val, e)], e);
    hide *;
  }

  lemma PushedMembers(queue: seq<Element>, e: Element)
    ensures forall x :: x in [e] + queue <==> x == e || x in queue
  {
  }

  lemma GrownNodes(items: map<nat, CacheNode>, e: Element, val: bytes)
    requires e.Value !in items
    ensures var grown := items[e.Value := CacheNode(val, e)];
            && grown.Keys == items.Keys + {e.Value} && |grown| == |items| + 1
            && grown[e.Value].keyPtr == e && forall k :: k in items ==> grown[k] == items[k]
  {
    var grown := items[e.Value := CacheNode(val, e)];
    assert grown.Keys == items.Keys + {e.Value};
    assert |grown| == |grown.Keys| && |items| == |items.Keys|;
  }

  lemma LinkedGrown(queue: seq<Element>, items: map<nat, CacheNode>, pushed: seq<Element>, grown: map<nat, CacheNode>, e: Element)
    requires Linked(queue, items) && e.Value !in items
    requires DistinctValues(pushed) && |pushed| == |queue| + 1 && |grown| == |items| + 1
    requires forall x :: x in pushed <==> x == e || x in queue
    requires grown.Keys == items.Keys + {e.Value}
    requires grown[e.Value].keyPtr == e && forall k :: k in items ==> grown[k] == items[k]
    ensures Linked(pushed, grown)
  {
    hide DistinctValues;
  }

  lemma DistinctPushed(queue: seq<Element>, e: Element)
    requires DistinctValues(queue) && forall x :: x in queue ==> x.Value != e.Value
    ensures DistinctValues([e] + queue)
  {
    assert forall i :: 0 < i < |[e] + queue| ==> ([e] + queue)[i] == queue[i - 1] && queue[i - 1] in queue;
  }

  lemma ViewPushed(queue: seq<Element>, items: map<nat, CacheNode>, pushed: seq<Element>, grown: map<nat, CacheNode>)
    requires forall e :: e in queue ==> e.Value in items
    requires forall e :: e in pushed ==> e.Value in grown
    requires forall k :: k in items ==> k in grown && grown[k] == items[k]
    requires |pushed| > 0 && pushed[1..] == queue
    ensures View(pushed, grown)
         == [Entry(pushed[0].Value, grown[pushed[0].Value].val)] + View(queue, items)
  {
    assert forall i :: 0 <= i < |queue| ==> queue[i] in queue && pushed[i + 1] == queue[i];
  }

  class PieceCache {
    var queue: seq<Element>
    var items: map<nat, CacheNode>
    const capacity: nat

    ghost predicate Valid()
      reads this
    {
      capacity >= 1 && |items| <= capacity && Linked(queue, items)
    }

    // The cached entries, most recently used first.
    ghost function State(): Cache
      requires Valid()
      reads this
    {
      View(queue, items)
    }

    constructor (capacity: nat)
      requires capacity >= 1
      ensures Valid() && State() == [] && this.capacity == capacity
    {
      queue, items := [], map[];
      this.capacity := capacity;
    }

    predicate Contains(pieceIndex: nat)
      requires Valid()
      reads this
      ensures Contains(pieceIndex) <==> Has(State(), pieceIndex)
    {
      IndexInView(queue, items, pieceIndex);
      pieceIndex in items
    }

    // Where e is in the list.
    method Find(e: Element) returns (i: nat)
      requires Valid() && e in queue
      ensures i < |queue| && queue[i] == e
    {
      i := 0;
      while queue[i] != e
        invariant i < |queue| && e in queue[i..]
        decreases |queue| - i
      {
        i := i + 1;
      }
    }

    method Put(pieceIndex: nat, val: bytes)
      requires Valid()
      modifies this
      ensures Valid() && State() == CacheSpec.Put(old(State()), capacity, pieceIndex, val)
    {
      hide Linked, Has, Index, Without;
      IndexInView(queue, items, pieceIndex);
      LinkedIsAsLong(queue, items);
      if pieceIndex !in items {
        if capacity == |items| {
          RemoveBack();
        }
        var front := new Element(pieceIndex);
        LinkedPushed(queue, items, front, val);
        LinkedIsAsLong(queue, items);
        LinkedIsAsLong([front] + queue, items[pieceIndex := CacheNode(val, front)]);
        ViewPushed(queue, items, [front] + queue, items[pieceIndex := CacheNode(val, front)]);
        items := items[pieceIndex := CacheNode(val, front)];
        queue := [front] + queue;
      } else {
        var item := items[pieceIndex];
        MoveToFront(pieceIndex, item.(val := val));
      }
    }

    // The list element and the map entry of the least recently used key go.
    method RemoveBack()
      requires Valid() && |items| > 0
      modifies this
      ensures Valid() && State() == old(State())[..|old(State())| - 1]
      ensures |items| == |old(items)| - 1 && items.Keys <= old(items.Keys)
    {
      hide Linked;
      LinkedIsAsLong(queue, items);
      var back := queue[|queue| - 1];
      var rest := queue[..|queue| - 1];
      assert queue == rest + [back];
      LinkedPopped(queue, items, rest, back);
      ViewPopped(queue, items, rest, back);
      queue := rest;
      items := items - {back.Value};
    }

    // Stores the node of a cached key and moves its element to the front.
    method MoveToFront(pieceIndex: nat, item: CacheNode)
      requires Valid() && pieceIndex in items && item.keyPtr == items[pieceIndex].keyPtr
      modifies this
      ensures Valid() && Has(old(State()), pieceIndex)
      ensures State() == [Entry(pieceIndex, item.val)] + Without(old(State()), Index(old(State()), pieceIndex))
    {
      hide Linked, Has, Index, Without;
      IndexInView(queue, items, pieceIndex);
      var i := Find(item.keyPtr);
      var moved := [queue[i]] + Without(queue, i);
      assert items[pieceIndex].(val := item.val) == item;
      LinkedMoved(queue, items, i, item.val, moved);
      LinkedIsAsLong(queue, items);
      LinkedIsAsLong(moved, items[pieceIndex := item]);
      assert forall e :: e in queue ==> e.Value in items[pieceIndex := item];
      ViewMoved(queue, items, i, moved, items[pieceIndex := item]);
      queue := moved;
      items := items[pieceIndex := item];
    }

    method Get(pieceIndex: nat) returns (val: Option<bytes>)
      requires Valid()
      modifies this
      ensures Valid() && State() == Touch(old(State()), pieceIndex)
      ensures val == if Has(old(State()), pieceIndex) then Some(Lookup(old(State()), pieceIndex)) else None
    {
      hide Linked, Has, Index, Without;
      IndexInView(queue, items, pieceIndex);
      if pieceIndex in items {
        var item := items[pieceIndex];
        MoveToFront(pieceIndex, item);
        return Some(item.val);
      }
      return None;
    }
  }
}
