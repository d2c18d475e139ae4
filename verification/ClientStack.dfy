/** The bounded stack that holds the connected client sockets. Items are ints; a vacated
    cell is zeroed. Indices arrive as C ints and are compared with a size_t count, so a
    negative index counts as out of range. */
module ClientStack {
  import opened CBytes

  /** `s` without element `i`, the last element moved into its place. */
  function SwapRemove(s: seq<int>, i: nat): seq<int>
    requires i < |s|
  {
    if i == |s| - 1 then s[..i] else s[..|s| - 1][i := s[|s| - 1]]
  }

  function OrderedRemove(s: seq<int>, i: nat): seq<int>
    requires i < |s|
  {
    s[..i] + s[i + 1..]
  }

  /** The fast removal moves the last element into the gap and nothing else. */
  lemma SwapRemoveAt(s: seq<int>, i: nat)
    requires i < |s|
    ensures |SwapRemove(s, i)| == |s| - 1
    ensures forall k :: 0 <= k < |s| - 1 ==> SwapRemove(s, i)[k] == if k == i then s[|s| - 1] else s[k]
  {
  }

  /** The fast removal takes out one occurrence of the element, keeps every other element,
      and does not move anything below the index. */
  lemma SwapRemoveBag(s: seq<int>, i: nat)
    requires i < |s|
    ensures multiset(s) == multiset(SwapRemove(s, i)) + multiset{s[i]}
    ensures SwapRemove(s, i)[..i] == s[..i]
  {
    var last := |s| - 1;
    var t := SwapRemove(s, i);
    if i == last {
      assert s == t + [s[i]];
    } else {
      var a, b := s[..i], s[i + 1..last];
      assert s == (a + [s[i]]) + (b + [s[last]]);
      assert t == (a + [s[last]]) + b;
      BagOfParts(a, s[i], b, s[last]);
      assert multiset(s) == multiset(t) + multiset{s[i]};
    }
  }

  lemma BagOfParts(a: seq<int>, x: int, b: seq<int>, y: int)
    ensures multiset((a + [x]) + (b + [y])) == multiset((a + [y]) + b) + multiset{x}
  {
    var m := multiset(a) + multiset(b);
    assert multiset((a + [x]) + (b + [y])) == m + multiset{x} + multiset{y};
    assert multiset((a + [y]) + b) == m + multiset{y};
  }

  /** Both removals keep the same items. */
  lemma RemovalsAgree(s: seq<int>, i: nat)
    requires i < |s|
    ensures multiset(OrderedRemove(s, i)) == multiset(SwapRemove(s, i))
  {
    hide OrderedRemove, SwapRemove;
    SwapRemoveBag(s, i);
    OrderedRemoveBag(s, i);
    Cancel(multiset(OrderedRemove(s, i)), multiset(SwapRemove(s, i)), multiset{s[i]});
  }

  lemma Cancel(a: multiset<int>, b: multiset<int>, x: multiset<int>)
    requires a + x == b + x
    ensures a == b
  {
    assert (a + x) - x == a && (b + x) - x == b;
  }

  lemma IsOrderedRemove(s: seq<int>, i: nat, t: seq<int>)
    requires i < |s| && |t| == |s| - 1
    requires (forall k :: 0 <= k < i ==> t[k] == s[k]) && (forall k :: i <= k < |t| ==> t[k] == s[k + 1])
    ensures t == OrderedRemove(s, i)
  {
    OrderedRemoveAt(s, i);
  }

  /** The slow removal keeps the other items in their order. */
  lemma OrderedRemoveAt(s: seq<int>, i: nat)
    requires i < |s|
    ensures |OrderedRemove(s, i)| == |s| - 1
    ensures forall k :: 0 <= k < i ==> OrderedRemove(s, i)[k] == s[k]
    ensures forall k :: i <= k < |s| - 1 ==> OrderedRemove(s, i)[k] == s[k + 1]
  {
  }

  lemma OrderedRemoveBag(s: seq<int>, i: nat)
    requires i < |s|
    ensures multiset(s) == multiset(OrderedRemove(s, i)) + multiset{s[i]}
  {
    var a, b := s[..i], s[i + 1..];
    assert s == (a + [s[i]]) + b;
    assert multiset(s) == multiset(a) + multiset{s[i]} + multiset(b);
    assert multiset(a + b) == multiset(a) + multiset(b);
  }

  class Stack {
    const capacity: nat
    const data: array<int>
    var count: nat

    ghost predicate Valid()
      reads this
    {
      data.Length == capacity && count <= capacity
    }

    ghost function Items(): seq<int>
      reads this, data
      requires Valid()
    {
      data[..count]
    }

    constructor (capacity: nat)
      ensures Valid() && Items() == [] && this.capacity == capacity && fresh(data)
    {
      this.capacity := capacity;
      data := new int[capacity](_ => 0);
      count := 0;
    }

    method Push(item: int) returns (index: int)
      requires Valid()
      modifies this`count, data
      ensures Valid()
      ensures old(count) == capacity ==> index == -1 && Items() == old(Items())
      ensures old(count) < capacity ==> index == old(count) && Items() == old(Items()) + [item]
    {
      if count >= capacity {
        return -1;
      }
      data[count] := item;
      count := count + 1;
      index := count - 1;
    }

    method Pop() returns (item: Option<int>)
      requires Valid()
      modifies this`count
      ensures Valid()
      ensures old(Items()) == [] ==> item == None && Items() == []
      ensures old(Items()) != [] ==>
                item.Some? && old(Items()) == Items() + [item.value]
    {
      if count < 1 {
        return None;
      }
      item := Some(data[count - 1]);
      count := count - 1;
    }

    method Get(i: int) returns (item: Option<int>)
      requires Valid()
      ensures item == if 0 <= i < |Items()| then Some(Items()[i]) else None
    {
      if i < 0 || i >= count {
        return None;
      }
      item := Some(data[i]);
    }

    /** Removal that keeps the order of the rest. */
    method RemoveAt(i: int) returns (ok: bool)
      requires Valid()
      modifies this`count, data
      ensures Valid()
      ensures ok == (0 <= i < old(count))
      ensures Items() == if ok then OrderedRemove(old(Items()), i) else old(Items())
      ensures ok ==> data[count] == 0
    {
      hide OrderedRemove;
      if i < 0 || i >= count {
        return false;
      }
      ghost var was := Items();
      var j := i;
      while j < count - 1
        invariant Valid() && count == old(count)
        invariant i <= j <= count - 1
        invariant forall k :: 0 <= k < i || j <= k < count ==> data[k] == was[k]
        invariant forall k :: i <= k < j ==> data[k] == was[k + 1]
      {
        data[j] := data[j + 1];
        j := j + 1;
      }
      data[j] := 0;
      count := count - 1;
      ok := true;
      IsOrderedRemove(was, i, Items());
    }

    /** Constant-time removal: the last item takes the vacated place. */
    method RemoveAtFast(i: int) returns (ok: bool)
      requires Valid()
      modifies this`count, data
      ensures Valid()
      ensures ok == (0 <= i < old(count))
      ensures Items() == if ok then SwapRemove(old(Items()), i) else old(Items())
      ensures ok ==> data[count] == 0
    {
      if i < 0 || i >= count {
        return false;
      }
      var last := data[count - 1];
      if count > 1 {
        data[i] := last;
      }
      data[count - 1] := 0;
      count := count - 1;
      ok := true;
    }
  }
}
