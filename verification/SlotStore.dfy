/** The abstract value of a slot store: which slots are used and with what, and the
    free list as a stack whose last element is handed out next. */
module SlotStore {
  import opened CBytes

  datatype Slots<T> = Slots(items: seq<Option<T>>, free: seq<nat>)

  /** The free list names every unused slot exactly once and nothing else. */
  ghost predicate Wf<T>(s: Slots<T>) {
    && (forall j, k :: 0 <= j < k < |s.free| ==> s.free[j] != s.free[k])
    && (forall k :: 0 <= k < |s.free| ==> s.free[k] < |s.items| && s.items[s.free[k]].None?)
    && (forall i :: 0 <= i < |s.items| && s.items[i].None? ==> i in s.free)
  }

  function Empty<T>(capacity: nat): Slots<T> {
    Slots(seq(capacity, _ => None), seq(capacity, i requires 0 <= i < capacity => capacity - 1 - i))
  }

  predicate Live<T>(s: Slots<T>, i: int) {
    0 <= i < |s.items| && s.items[i].Some?
  }

  function NextSlot<T>(s: Slots<T>): nat
    requires s.free != []
  {
    s.free[|s.free| - 1]
  }

  function Push<T>(s: Slots<T>, x: T): Slots<T>
    requires s.free != [] && NextSlot(s) < |s.items|
  {
    Slots(s.items[NextSlot(s) := Some(x)], s.free[..|s.free| - 1])
  }

  function Replace<T>(s: Slots<T>, i: nat, x: T): Slots<T> {
    if Live(s, i) then s.(items := s.items[i := Some(x)]) else s
  }

  function Remove<T>(s: Slots<T>, i: nat): Slots<T> {
    if Live(s, i) then Slots(s.items[i := None], s.free + [i]) else s
  }

  /** The multiset of stored items. */
  ghost function Bag<T>(items: seq<Option<T>>): multiset<T> {
    if items == [] then multiset{} else BagOf(items[0]) + Bag(items[1..])
  }

  ghost function BagOf<T>(o: Option<T>): multiset<T> {
    if o.Some? then multiset{o.value} else multiset{}
  }

  ghost function AsMap<T>(s: Slots<T>): map<int, T> {
    map i | 0 <= i < |s.items| && s.items[i].Some? :: s.items[i].value
  }

  // ----- every operation keeps the free list exact ---------------------------

  lemma EmptyWf<T>(capacity: nat)
    ensures Wf(Empty<T>(capacity))
    ensures Bag(Empty<T>(capacity).items) == multiset{}
  {
    var s := Empty<T>(capacity);
    forall i | 0 <= i < |s.items| ensures i in s.free {
      assert s.free[capacity - 1 - i] == i;
    }
    BagOfNothing(s.items);
  }

  lemma {:induction false} BagOfNothing<T>(items: seq<Option<T>>)
    requires forall i :: 0 <= i < |items| ==> items[i].None?
    ensures Bag(items) == multiset{}
  {
    if items != [] {
      BagOfNothing(items[1..]);
    }
  }

  lemma PushWf<T>(s: Slots<T>, x: T)
    requires Wf(s) && s.free != []
    ensures Wf(Push(s, x))
    ensures s.items[NextSlot(s)].None?
  {
    var t := Push(s, x);
    forall i | 0 <= i < |t.items| && t.items[i].None? ensures i in t.free {
      var k :| 0 <= k < |s.free| && s.free[k] == i;
      assert t.free[k] == i;
    }
  }

  lemma RemoveWf<T>(s: Slots<T>, i: nat)
    requires Wf(s)
    ensures Wf(Remove(s, i))
  {
    var t := Remove(s, i);
    forall j | 0 <= j < |t.items| && t.items[j].None? ensures j in t.free {
      if j == i && Live(s, i) {
        assert t.free[|s.free|] == j;
      } else {
        assert j in s.free;
      }
    }
  }

  lemma ReplaceWf<T>(s: Slots<T>, i: nat, x: T)
    requires Wf(s)
    ensures Wf(Replace(s, i, x))
  {
  }

  // ----- the free list is a stack --------------------------------------------

  /** A slot freed and refilled at once is the same slot, and the free list is unchanged. */
  lemma PushAfterRemove<T>(s: Slots<T>, i: nat, x: T)
    requires Wf(s) && Live(s, i)
    ensures NextSlot(Remove(s, i)) == i
    ensures Push(Remove(s, i), x) == Slots(s.items[i := Some(x)], s.free)
  {
    assert Push(Remove(s, i), x).items == s.items[i := Some(x)];
  }

  /** Filling a slot and freeing it again leaves no trace. */
  lemma RemoveAfterPush<T>(s: Slots<T>, x: T)
    requires Wf(s) && s.free != []
    ensures Remove(Push(s, x), NextSlot(s)) == s
  {
    PushWf(s, x);
    assert Remove(Push(s, x), NextSlot(s)).items == s.items;
  }

  // ----- counting --------------------------------------------------------------

  lemma {:induction false} BagUpdate<T>(items: seq<Option<T>>, i: nat, x: Option<T>)
    requires i < |items|
    ensures Bag(items[i := x]) + BagOf(items[i]) == Bag(items) + BagOf(x)
  {
    var t := items[i := x];
    BagCons(items);
    BagCons(t);
    hide Bag, BagOf;
    if i == 0 {
      assert t[1..] == items[1..];
      Shuffle(BagOf(x), BagOf(items[0]), Bag(items[1..]));
    } else {
      assert t[1..] == items[1..][i - 1 := x] && t[0] == items[0];
      BagUpdate(items[1..], i - 1, x);
      AddHead(BagOf(items[0]), Bag(t[1..]), BagOf(items[i]), Bag(items[1..]), BagOf(x));
    }
  }

  lemma BagCons<T>(items: seq<Option<T>>)
    requires items != []
    ensures Bag(items) == BagOf(items[0]) + Bag(items[1..])
  {
  }

  lemma Shuffle<T>(x: multiset<T>, y: multiset<T>, rest: multiset<T>)
    ensures (x + rest) + y == (y + rest) + x
  {
  }

  lemma AddHead<T>(h: multiset<T>, a: multiset<T>, x: multiset<T>, b: multiset<T>, y: multiset<T>)
    requires a + x == b + y
    ensures (h + a) + x == (h + b) + y
  {
    assert (h + a) + x == h + (a + x);
    assert (h + b) + y == h + (b + y);
  }

  lemma PushBag<T>(s: Slots<T>, x: T)
    requires Wf(s) && s.free != []
    ensures Bag(Push(s, x).items) == Bag(s.items) + multiset{x}
  {
    BagUpdate(s.items, NextSlot(s), Some(x));
    assert BagOf<T>(None) == multiset{};
  }

  lemma RemoveBag<T>(s: Slots<T>, i: nat)
    requires Live(s, i)
    ensures Bag(s.items) == Bag(Remove(s, i).items) + multiset{s.items[i].value}
  {
    BagUpdate(s.items, i, None);
    assert BagOf<T>(None) == multiset{};
  }

  lemma {:induction false} InBag<T>(items: seq<Option<T>>, x: T)
    ensures x in Bag(items) <==> exists i :: 0 <= i < |items| && items[i] == Some(x)
  {
    if items != [] {
      InBag(items[1..], x);
      if x in Bag(items[1..]) {
        var i :| 0 <= i < |items[1..]| && items[1..][i] == Some(x);
        assert items[i + 1] == Some(x);
      }
      if i :| 0 <= i < |items| && items[i] == Some(x) {
        if i > 0 {
          assert items[1..][i - 1] == Some(x);
        }
      }
    }
  }

  /** Length = capacity - free slots, i.e. every slot is either used or on the free list. */
  lemma UsedPlusFree<T>(s: Slots<T>)
    requires Wf(s)
    ensures |Bag(s.items)| + |s.free| == |s.items|
    ensures |AsMap(s)| == |Bag(s.items)|
  {
    assert AsMap(s).Keys == UsedSet(s.items);
    assert FreeSet(s.items) == set k | k in s.free;
    DistinctSetSize(s.free);
    CountSlots(s.items);
  }

  ghost function UsedSet<T>(items: seq<Option<T>>): set<int> {
    set i | 0 <= i < |items| && items[i].Some?
  }

  ghost function FreeSet<T>(items: seq<Option<T>>): set<int> {
    set i | 0 <= i < |items| && items[i].None?
  }

  lemma {:induction false} DistinctSetSize(s: seq<int>)
    requires forall j, k :: 0 <= j < k < |s| ==> s[j] != s[k]
    ensures |set x | x in s| == |s|
  {
    if s != [] {
      var t := s[..|s| - 1];
      DistinctSetSize(t);
      assert s == t + [s[|s| - 1]];
      assert (set x | x in s) == (set x | x in t) + {s[|s| - 1]};
    }
  }

  lemma {:induction false} CountSlots<T>(items: seq<Option<T>>)
    ensures |UsedSet(items)| == |Bag(items)|
    ensures |FreeSet(items)| == |items| - |Bag(items)|
  {
    if items == [] {
      assert UsedSet(items) == {} && FreeSet(items) == {};
    } else {
      var n := |items| - 1;
      CountSlots(items[..n]);
      hide UsedSet, FreeSet, Bag;
      SetsOfPrefix(items, n);
      BagAppend(items[..n], items[n]);
      assert items == items[..n] + [items[n]];
    }
  }

  lemma SetsOfPrefix<T>(items: seq<Option<T>>, n: nat)
    requires |items| == n + 1
    ensures |UsedSet(items)| == |UsedSet(items[..n])| + |BagOf(items[n])|
    ensures |FreeSet(items)| == |FreeSet(items[..n])| + 1 - |BagOf(items[n])|
  {
    assert UsedSet(items) == UsedSet(items[..n]) + (if items[n].Some? then {n} else {});
    assert FreeSet(items) == FreeSet(items[..n]) + (if items[n].None? then {n} else {});
  }

  lemma {:induction false} BagAppend<T>(items: seq<Option<T>>, x: Option<T>)
    ensures Bag(items + [x]) == Bag(items) + BagOf(x)
  {
    if items == [] {
      assert items + [x] == [x];
      assert [x][1..] == [];
    } else {
      assert (items + [x])[1..] == items[1..] + [x];
      BagAppend(items[1..], x);
    }
  }

  // ----- arbitrary runs of store operations -------------------------------------

  datatype Op<T> = PushOp(x: T) | ReplaceOp(i: nat, x: T) | RemoveOp(i: nat) | ResetOp

  function Apply<T>(s: Slots<T>, op: Op<T>): Slots<T>
    requires s.free != [] ==> NextSlot(s) < |s.items|
  {
    match op
    case PushOp(x) => if s.free != [] then Push(s, x) else s
    case ReplaceOp(i, x) => Replace(s, i, x)
    case RemoveOp(i) => Remove(s, i)
    case ResetOp => Empty(|s.items|)
  }

  ghost function ApplyAll<T>(s: Slots<T>, ops: seq<Op<T>>): (t: Slots<T>)
    requires Wf(s)
    ensures Wf(t) && |t.items| == |s.items|
    decreases |ops|
  {
    if ops == [] then s
    else
      ApplyWf(s, ops[0]);
      ApplyAll(Apply(s, ops[0]), ops[1..])
  }

  lemma ApplyWf<T>(s: Slots<T>, op: Op<T>)
    requires Wf(s)
    ensures Wf(Apply(s, op)) && |Apply(s, op).items| == |s.items|
  {
    match op
    case PushOp(x) => if s.free != [] { PushWf(s, x); }
    case ReplaceOp(i, x) => ReplaceWf(s, i, x);
    case RemoveOp(i) => RemoveWf(s, i);
    case ResetOp => EmptyWf<T>(|s.items|);
  }

  /** One operation seen as a step of a partial map on [0, capacity). */
  ghost predicate MapStep<T(!new)>(capacity: nat, m: map<int, T>, op: Op<T>, m': map<int, T>) {
    match op
    case PushOp(x) =>
      if |m| < capacity then exists k :: 0 <= k < capacity && k !in m && m' == m[k := x] else m' == m
    case ReplaceOp(i, x) => m' == if i in m then m[i := x] else m
    case RemoveOp(i) => m' == m - {i}
    case ResetOp => m' == map[]
  }

  lemma PushAsMap<T>(s: Slots<T>, x: T)
    requires Wf(s) && s.free != []
    ensures NextSlot(s) !in AsMap(s)
    ensures AsMap(Push(s, x)) == AsMap(s)[NextSlot(s) := x]
  {
    PushWf(s, x);
  }

  lemma EmptyAsMap<T>(capacity: nat)
    ensures AsMap(Empty<T>(capacity)) == map[]
  {
  }

  lemma ReplaceAsMap<T>(s: Slots<T>, i: nat, x: T)
    ensures AsMap(Replace(s, i, x)) == if i in AsMap(s) then AsMap(s)[i := x] else AsMap(s)
  {
  }

  lemma RemoveAsMap<T>(s: Slots<T>, i: nat)
    ensures AsMap(Remove(s, i)) == AsMap(s) - {i}
  {
  }

  lemma ApplyIsMapStep<T(!new)>(s: Slots<T>, op: Op<T>)
    requires Wf(s)
    ensures MapStep(|s.items|, AsMap(s), op, AsMap(Apply(s, op)))
  {
    UsedPlusFree(s);
    hide AsMap, Push, Remove, Replace, Empty;
    match op {
      case PushOp(x) =>
        if s.free != [] {
          PushAsMap(s, x);
        }
      case ReplaceOp(i, x) => ReplaceAsMap(s, i, x);
      case RemoveOp(i) => RemoveAsMap(s, i);
      case ResetOp => EmptyAsMap<T>(|s.items|);
    }
  }

  /** From any reachable store, each operation is exactly the partial-map operation it
      implements; a push succeeds precisely while some slot is free. */
  lemma StoreIsPartialMap<T(!new)>(capacity: nat, ops: seq<Op<T>>, op: Op<T>, s: Slots<T>)
    requires Wf(Empty<T>(capacity)) && s == ApplyAll(Empty<T>(capacity), ops)
    ensures |s.items| == capacity && |AsMap(s)| == capacity - |s.free|
    ensures AsMap(s).Keys == set i | 0 <= i < capacity && i !in s.free
    ensures MapStep(capacity, AsMap(s), op, AsMap(Apply(s, op)))
  {
    UsedPlusFree(s);
    ApplyIsMapStep(s, op);
  }
}
