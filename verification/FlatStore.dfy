/** The slot store as it lies in memory: `capacity` cells of `itemSize + 1` bytes each, the
    first byte of a cell being its used flag, next to an array of free slot numbers. Every
    method is proved against the abstract operation of `SlotStore` on the store's `View()`,
    and says which bytes of the flat buffer it leaves alone. */
module FlatStore {
  import opened CBytes
  import opened SlotStore

  /** A slot number with the offset of its item's first byte; `KEYVALUE_NONE` is (-1, None). */
  datatype KeyValue = KeyValue(key: int, at: Option<nat>)

  const KEYVALUE_NONE := KeyValue(-1, None)

  /** What cell `i` of a flat buffer holds. */
  function CellAt(d: seq<Byte>, size: nat, i: nat): Option<seq<Byte>> {
    CellFrom(d, size, i * (size + 1))
  }

  /** What the cell starting at byte `p` holds. */
  function CellFrom(d: seq<Byte>, size: nat, p: nat): Option<seq<Byte>> {
    if p + size + 1 <= |d| && d[p] != NUL then Some(d[p + 1..p + 1 + size]) else None
  }

  function Cells(d: seq<Byte>, size: nat, capacity: nat): seq<Option<seq<Byte>>> {
    seq(capacity, i requires 0 <= i < capacity => CellAt(d, size, i))
  }

  /** Byte `k` of the buffer belongs to cell `i`. */
  predicate InCell(size: nat, i: nat, k: int) {
    i * (size + 1) <= k < i * (size + 1) + size + 1
  }

  lemma CellsApart(size: nat, i: nat, j: nat, capacity: nat)
    requires i < capacity && j < capacity
    ensures i < j ==> i * (size + 1) + size + 1 <= j * (size + 1)
    ensures j < i ==> j * (size + 1) + size + 1 <= i * (size + 1)
    ensures i * (size + 1) + size + 1 <= capacity * (size + 1)
  {
    if i < j {
      MulMonotone(i + 1, j, size + 1);
    } else if j < i {
      MulMonotone(j + 1, i, size + 1);
    }
    MulMonotone(i + 1, capacity, size + 1);
  }

  lemma MulMonotone(a: nat, b: nat, m: nat)
    requires a <= b
    ensures a * m <= b * m
  {
    assert (b - a) * m >= 0;
  }

  lemma CellFromIs(d: seq<Byte>, size: nat, p: nat)
    requires p + size + 1 <= |d|
    ensures CellFrom(d, size, p).Some? <==> d[p] != '\0'
    ensures CellFrom(d, size, p).Some? ==> CellFrom(d, size, p).value == d[p + 1..p + 1 + size]
  {
  }

  lemma CellUntouched(d: seq<Byte>, e: seq<Byte>, size: nat, p: nat, from: nat, to: nat)
    requires |d| == |e| && forall k :: 0 <= k < |d| && !(from <= k < to) ==> e[k] == d[k]
    requires p + size + 1 <= |d| && (p + size + 1 <= from || to <= p)
    ensures CellFrom(e, size, p) == CellFrom(d, size, p)
  {
    assert d[p + 1..p + 1 + size] == e[p + 1..p + 1 + size];
  }

  /** Changing bytes of one cell only changes that cell. */
  lemma CellsUpdate(d: seq<Byte>, e: seq<Byte>, size: nat, capacity: nat, i: nat)
    requires |d| == |e| == capacity * (size + 1) && i < capacity
    requires forall k :: 0 <= k < |d| && !InCell(size, i, k) ==> e[k] == d[k]
    ensures Cells(e, size, capacity) == Cells(d, size, capacity)[i := CellAt(e, size, i)]
  {
    var from := i * (size + 1);
    assert forall k :: 0 <= k < |d| && !(from <= k < from + size + 1) ==> e[k] == d[k];
    hide CellFrom, InCell;
    forall j: nat | j < capacity && j != i
      ensures CellAt(e, size, j) == CellAt(d, size, j)
    {
      CellsApart(size, i, j, capacity);
      CellsApart(size, j, i, capacity);
      CellUntouched(d, e, size, j * (size + 1), from, from + size + 1);
    }
  }

  lemma ZeroCells(d: seq<Byte>, size: nat, capacity: nat)
    requires |d| == capacity * (size + 1) && forall k :: 0 <= k < |d| ==> d[k] == NUL
    ensures Cells(d, size, capacity) == seq(capacity, _ => None)
  {
    forall i: nat | i < capacity ensures CellAt(d, size, i) == None {
    }
  }

  class Store {
    const capacity: nat
    const itemSize: nat
    const open: array<nat>
    const data: array<Byte>
    var openCnt: nat

    ghost predicate Layout()
      reads this
    {
      && open.Length == capacity
      && data.Length == capacity * (itemSize + 1)
      && openCnt <= capacity
    }

    ghost function View(): Slots<seq<Byte>>
      reads this, open, data
      requires Layout()
    {
      Slots(Cells(data[..], itemSize, capacity), open[..openCnt])
    }

    ghost predicate Valid()
      reads this, open, data
    {
      Layout() && Wf(View())
    }

    function Ptr(i: nat): (p: nat)
    {
      i * (itemSize + 1)
    }

    constructor (capacity: nat, itemSize: nat)
      ensures Valid() && fresh(open) && fresh(data)
      ensures this.capacity == capacity && this.itemSize == itemSize
      ensures View() == Empty(capacity)
    {
      this.capacity := capacity;
      this.itemSize := itemSize;
      open := new nat[capacity];
      data := new Byte[capacity * (itemSize + 1)](_ => NUL);
      openCnt := capacity;
      new;
      ResetOpen();
      ZeroedIsEmpty();
    }

    /** A zeroed buffer with a freshly reset free list is the empty store. */
    lemma ZeroedIsEmpty()
      requires Layout() && openCnt == capacity
      requires forall k :: 0 <= k < capacity ==> open[k] == capacity - 1 - k
      requires forall k :: 0 <= k < data.Length ==> data[k] == NUL
      ensures View() == Empty(capacity) && Valid()
    {
      hide CellAt;
      ZeroCells(data[..], itemSize, capacity);
      EmptyWf<seq<Byte>>(capacity);
      hide Wf, Cells;
      assert View().items == Empty<seq<Byte>>(capacity).items;
      assert View().free == Empty<seq<Byte>>(capacity).free;
    }

    /** Where an item lies: behind its flag byte, `itemSize + 1` bytes per slot. */
    lemma ItemLiesAt(i: nat)
      requires Layout() && i < capacity
      ensures i * (itemSize + 1) + itemSize + 1 <= data.Length
      ensures Live(View(), i) <==> data[i * (itemSize + 1)] != '\0'
      ensures Live(View(), i) ==>
                View().items[i].value == data[i * (itemSize + 1) + 1..i * (itemSize + 1) + 1 + itemSize]
    {
      hide CellFrom;
      CellsApart(itemSize, i, i, capacity);
      ghost var d := data[..];
      assert View().items[i] == CellFrom(d, itemSize, i * (itemSize + 1));
      CellFromIs(d, itemSize, i * (itemSize + 1));
      SameSlice(i * (itemSize + 1) + 1, itemSize);
    }

    lemma SameSlice(p: nat, n: nat)
      requires p + n <= data.Length
      ensures data[..][p..p + n] == data[p..p + n]
    {
    }

    method ResetOpen()
      requires Layout()
      modifies this`openCnt, open
      ensures Layout() && openCnt == capacity
      ensures forall k :: 0 <= k < capacity ==> open[k] == capacity - 1 - k
    {
      openCnt := capacity;
      for i := 0 to capacity
        invariant openCnt == capacity
        invariant forall k :: 0 <= k < i ==> open[k] == capacity - 1 - k
      {
        open[i] := (capacity - 1) - i;
      }
    }

    /** `get_push_index`: takes the top of the free list. */
    method GetPushIndex() returns (idx: int)
      requires Valid()
      modifies this`openCnt
      ensures Layout()
      ensures old(View().free) == [] ==> idx == -1 && openCnt == old(openCnt)
      ensures old(View().free) != [] ==>
                && idx == old(NextSlot(View())) && 0 <= idx < capacity
                && openCnt == old(openCnt) - 1
                && View().free == old(View().free)[..openCnt]
    {
      if openCnt > 0 {
        openCnt := openCnt - 1;
        idx := open[openCnt];
      } else {
        idx := -1;
      }
    }

    /** Pushes a whole item: the next free slot becomes used and holds exactly `item`. */
    method Push(item: seq<Byte>) returns (res: KeyValue)
      requires Valid() && |item| == itemSize
      modifies this`openCnt, data
      ensures Valid()
      ensures old(View().free) == [] ==>
                res == KEYVALUE_NONE && View() == old(View()) && data[..] == old(data[..])
      ensures old(View().free) != [] ==>
                && res.key == old(NextSlot(View())) && res.at == Some(Ptr(res.key) + 1)
                && View() == SlotStore.Push(old(View()), item)
                && forall k :: 0 <= k < data.Length && !InCell(itemSize, res.key, k) ==>
                     data[k] == old(data[k])
    {
      var idx := GetPushIndex();
      if idx < 0 {
        return KEYVALUE_NONE;
      }
      Fill(idx, item);
      ghost var was := old(View());
      PushWf(was, item);
      assert View().items == was.items[idx := Some(item)];
      assert View() == SlotStore.Push(was, item);
      res := KeyValue(idx, Some(Ptr(idx) + 1));
    }

    /** Pushes a zero-filled item. */
    method PushEmpty() returns (res: KeyValue)
      requires Valid()
      modifies this`openCnt, data
      ensures Valid()
      ensures old(View().free) == [] ==>
                res == KEYVALUE_NONE && View() == old(View()) && data[..] == old(data[..])
      ensures old(View().free) != [] ==>
                && res.key == old(NextSlot(View())) && res.at == Some(Ptr(res.key) + 1)
                && View() == SlotStore.Push(old(View()), seq(itemSize, _ => NUL))
                && forall k :: 0 <= k < data.Length && !InCell(itemSize, res.key, k) ==>
                     data[k] == old(data[k])
    {
      res := Push(seq(itemSize, _ => NUL));
    }

    /** Sets the used flag of cell `i` and copies the item behind it. */
    method Fill(i: nat, item: seq<Byte>)
      requires Layout() && i < capacity && |item| == itemSize
      modifies data
      ensures Layout()
      ensures Cells(data[..], itemSize, capacity)
           == old(Cells(data[..], itemSize, capacity))[i := Some(item)]
      ensures forall k :: 0 <= k < data.Length && !InCell(itemSize, i, k) ==> data[k] == old(data[k])
    {
      CellsApart(itemSize, i, i, capacity);
      var p := Ptr(i);
      data[p] := 1 as char;
      forall k | 0 <= k < itemSize {
        data[p + 1 + k] := item[k];
      }
      assert data[p + 1..p + 1 + itemSize] == item;
      assert CellFrom(data[..], itemSize, p) == Some(item);
      CellsUpdate(old(data[..]), data[..], itemSize, capacity, i);
    }

    method Get(i: nat) returns (res: KeyValue)
      requires Valid() && i < capacity
      ensures res == if Live(View(), i) then KeyValue(i, Some(Ptr(i) + 1)) else KEYVALUE_NONE
    {
      var used := IsUsed(i);
      res := if used then KeyValue(i, Some(Ptr(i) + 1)) else KEYVALUE_NONE;
    }

    method IsUsed(i: nat) returns (used: bool)
      requires Valid() && i < capacity
      ensures used == Live(View(), i)
    {
      CellsApart(itemSize, i, i, capacity);
      used := data[Ptr(i)] != NUL;
    }

    method Replace(i: nat, item: seq<Byte>) returns (ok: bool)
      requires Valid() && |item| == itemSize
      modifies data
      ensures Valid()
      ensures ok == old(Live(View(), i)) && View() == SlotStore.Replace(old(View()), i, item)
      ensures forall k :: 0 <= k < data.Length && !(ok && InCell(itemSize, i, k)) ==>
                data[k] == old(data[k])
    {
      if i >= capacity {
        return false;
      }
      var used := IsUsed(i);
      if !used {
        return false;
      }
      ReplaceWf(View(), i, item);
      Fill(i, item);
      ok := true;
      assert View() == SlotStore.Replace(old(View()), i, item);
    }

    method RemoveAt(i: nat) returns (ok: bool)
      requires Valid()
      modifies this`openCnt, open, data
      ensures Valid()
      ensures ok == old(Live(View(), i)) && View() == SlotStore.Remove(old(View()), i)
      ensures forall k :: 0 <= k < data.Length && !(ok && k == Ptr(i)) ==> data[k] == old(data[k])
    {
      if i >= capacity {
        return false;
      }
      var used := IsUsed(i);
      if !used {
        return false;
      }
      ghost var was := View();
      RoomToFree(was, i);
      RemoveWf(was, i);
      hide Wf;
      ClearFlag(i);
      open[openCnt] := i;
      openCnt := openCnt + 1;
      assert View().free == was.free + [i];
      return true;
    }

    method ClearFlag(i: nat)
      requires Layout() && i < capacity
      modifies data
      ensures Cells(data[..], itemSize, capacity)
           == old(Cells(data[..], itemSize, capacity))[i := None]
      ensures forall k :: 0 <= k < data.Length && k != Ptr(i) ==> data[k] == old(data[k])
    {
      CellsApart(itemSize, i, i, capacity);
      data[Ptr(i)] := NUL;
      CellsUpdate(old(data[..]), data[..], itemSize, capacity, i);
    }

    /** While a slot is used, the free list is not full. */
    lemma RoomToFree(s: Slots<seq<Byte>>, i: nat)
      requires Wf(s) && Live(s, i)
      ensures |s.free| < |s.items|
    {
      UsedPlusFree(s);
      InBag(s.items, s.items[i].value);
    }

    /** The number of used slots. */
    method Length() returns (n: int)
      requires Valid()
      ensures n == |Bag(View().items)| == |AsMap(View())|
    {
      UsedPlusFree(View());
      n := capacity - openCnt;
    }

    method Reset()
      requires Valid()
      modifies this`openCnt, open, data
      ensures Valid() && View() == Empty(capacity)
    {
      forall k | 0 <= k < data.Length {
        data[k] := NUL;
      }
      ResetOpen();
      ZeroedIsEmpty();
    }
  }
}
