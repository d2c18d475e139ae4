/** What the arena allocator hands out, as values: pages in list order, each with a bump
    mark, and whether the tail is locked against growth. */
module ArenaPool {
  import opened CBytes

  datatype Page = Page(size: nat, used: nat)
  datatype Pool = Pool(pages: seq<Page>, locked: bool)
  datatype Block = Block(page: nat, offset: nat, size: nat)

  predicate Fits(p: Page, n: nat) {
    p.used + n <= p.size
  }

  ghost predicate Wf(a: Pool) {
    forall i :: 0 <= i < |a.pages| ==> a.pages[i].used <= a.pages[i].size
  }

  /** `arena_init`: one page at least, and a lock only takes hold when pages were preallocated. */
  function Init(size: nat, prealloc: nat, lock: bool): Pool {
    Pool(Fresh(if prealloc == 0 then 1 else prealloc, size), lock && prealloc > 0)
  }

  function Fresh(n: nat, size: nat): seq<Page> {
    seq(n, _ => Page(size, 0))
  }

  lemma FreshGrows(n: nat, size: nat)
    requires n > 0
    ensures Fresh(n, size) == Fresh(n - 1, size) + [Page(size, 0)]
  {
  }

  /** The first page from `k` on with room for `n` bytes. */
  function FirstFit(pages: seq<Page>, n: nat, k: nat): (j: nat)
    requires k <= |pages|
    ensures k <= j <= |pages|
    ensures forall i :: k <= i < j ==> !Fits(pages[i], n)
    ensures j < |pages| ==> Fits(pages[j], n)
    decreases |pages| - k
  {
    if k == |pages| || Fits(pages[k], n) then k else FirstFit(pages, n, k + 1)
  }

  /** One request: refused when larger than the first page, else served by the first page
      with room, else by a new page of exactly the requested size unless locked. */
  function Alloc(a: Pool, n: nat): (Pool, Option<Block>) {
    if a.pages == [] || n > a.pages[0].size then (a, None)
    else
      var j := FirstFit(a.pages, n, 0);
      if j < |a.pages| then
        var p := a.pages[j];
        (a.(pages := a.pages[j := p.(used := p.used + n)]), Some(Block(j, p.used, n)))
      else if a.locked then (a, None)
      else (a.(pages := a.pages + [Page(n, n)]), Some(Block(j, 0, n)))
  }

  function AllocAll(a: Pool, requests: seq<nat>): (r: (Pool, seq<Option<Block>>))
    ensures |r.1| == |requests|
    decreases |requests|
  {
    if requests == [] then (a, [])
    else
      var (b, x) := Alloc(a, requests[0]);
      var (c, xs) := AllocAll(b, requests[1..]);
      (c, [x] + xs)
  }

  // ----- refusal -----------------------------------------------------------------

  /** A request fails exactly when there is no page, it is larger than the first page, or the arena is
      locked and no page has that much room left; and then nothing changes. */
  lemma RefusedIff(a: Pool, n: nat)
    ensures Alloc(a, n).1.None? <==>
              || a.pages == [] || n > a.pages[0].size
              || (a.locked && forall i :: 0 <= i < |a.pages| ==> a.pages[i].used + n > a.pages[i].size)
    ensures Alloc(a, n).1.None? ==> Alloc(a, n).0 == a
  {
    if a.pages != [] && n <= a.pages[0].size {
      var j := FirstFit(a.pages, n, 0);
    }
  }

  /** A request that is served takes the first page with that much room, at the end of what is used
      there, or, when there is none, a new page that it fills; no other page changes. */
  lemma ServedFirst(a: Pool, n: nat)
    requires Alloc(a, n).1.Some?
    ensures var b, x := Alloc(a, n).0, Alloc(a, n).1.value;
            && x.size == n && b.locked == a.locked
            && (forall i :: 0 <= i < x.page && i < |a.pages| ==> a.pages[i].used + n > a.pages[i].size)
            && if x.page < |a.pages| then
                 && x.offset == a.pages[x.page].used && x.offset + n <= a.pages[x.page].size
                 && b.pages == a.pages[x.page := Page(a.pages[x.page].size, x.offset + n)]
               else x.page == |a.pages| && x.offset == 0 && b.pages == a.pages + [Page(n, n)]
  {
  }

  /** Without a lock, or with a lock but nothing preallocated, every request of at most the page size
      is served, however many come. */
  lemma UnlockedServes(size: nat, prealloc: nat, lock: bool, requests: seq<nat>)
    requires !lock || prealloc == 0
    requires forall k :: 0 <= k < |requests| ==> requests[k] <= size
    ensures forall k :: 0 <= k < |requests| ==> AllocAll(Init(size, prealloc, lock), requests).1[k].Some?
  {
    UnlockedRun(Init(size, prealloc, lock), requests);
  }

  lemma {:induction false} UnlockedRun(a: Pool, requests: seq<nat>)
    requires a.pages != [] && !a.locked
    requires forall k :: 0 <= k < |requests| ==> requests[k] <= a.pages[0].size
    ensures forall k :: 0 <= k < |requests| ==> AllocAll(a, requests).1[k].Some?
    decreases |requests|
  {
    if requests != [] {
      var (b, x) := Alloc(a, requests[0]);
      RefusedIff(a, requests[0]);
      ServedFirst(a, requests[0]);
      hide Alloc;
      UnlockedRun(b, requests[1..]);
      var all := AllocAll(a, requests).1;
      assert forall k :: 1 <= k < |all| ==> all[k] == AllocAll(b, requests[1..]).1[k - 1];
    }
  }

  // ----- blocks never overlap ------------------------------------------------------

  predicate Disjoint(x: Block, y: Block) {
    x.page != y.page || x.offset + x.size <= y.offset || y.offset + y.size <= x.offset
  }

  predicate Inside(x: Block, a: Pool) {
    x.page < |a.pages| && x.offset + x.size <= a.pages[x.page].size
  }

  /** `x` starts at or above the mark its page had in `a`. */
  predicate Above(x: Block, a: Pool) {
    x.page < |a.pages| ==> a.pages[x.page].used <= x.offset
  }

  ghost predicate Grows(a: Pool, b: Pool) {
    && |a.pages| <= |b.pages| && a.locked == b.locked
    && forall i :: 0 <= i < |a.pages| ==>
         a.pages[i].size == b.pages[i].size && a.pages[i].used <= b.pages[i].used
  }

  lemma {:induction false} RunGrows(a: Pool, requests: seq<nat>)
    requires Wf(a)
    ensures var (c, xs) := AllocAll(a, requests);
            && Wf(c) && Grows(a, c)
            && forall k :: 0 <= k < |xs| && xs[k].Some? ==> Above(xs[k].value, a) && Inside(xs[k].value, c)
    decreases |requests|
  {
    if requests != [] {
      var (b, x) := Alloc(a, requests[0]);
      RunGrows(b, requests[1..]);
      var (c, xs) := AllocAll(b, requests[1..]);
      var all := AllocAll(a, requests).1;
      forall k | 0 <= k < |all| && all[k].Some?
        ensures Above(all[k].value, a) && Inside(all[k].value, c)
      {
        if k > 0 {
          assert all[k] == xs[k - 1];
        }
      }
    }
  }

  /** Over any run of requests, every block lies inside one page, has the size asked for,
      and no two blocks overlap. */
  lemma {:induction false} BlocksDisjoint(a: Pool, requests: seq<nat>)
    requires Wf(a)
    ensures var (c, xs) := AllocAll(a, requests);
            && (forall k :: 0 <= k < |xs| && xs[k].Some? ==>
                 Inside(xs[k].value, c) && xs[k].value.size == requests[k])
            && (forall j, k :: 0 <= j < k < |xs| && xs[j].Some? && xs[k].Some? ==>
                 Disjoint(xs[j].value, xs[k].value))
    decreases |requests|
  {
    RunGrows(a, requests);
    if requests != [] {
      var (b, x) := Alloc(a, requests[0]);
      RunGrows(b, requests[1..]);
      BlocksDisjoint(b, requests[1..]);
      var xs := AllocAll(b, requests[1..]).1;
      var all := AllocAll(a, requests).1;
      assert forall k :: 1 <= k < |all| ==> all[k] == xs[k - 1];
    }
  }

  // ----- how much a locked arena serves ----------------------------------------------

  /** How many more requests of `s` bytes the pages can take. */
  function Room(pages: seq<Page>, s: nat): nat
    requires s > 0
    requires forall i :: 0 <= i < |pages| ==> pages[i].used <= pages[i].size
  {
    if pages == [] then 0 else (pages[0].size - pages[0].used) / s + Room(pages[1..], s)
  }

  lemma OneFewer(free: nat, s: nat)
    requires 0 < s <= free
    ensures free / s > 0 && (free - s) / s == free / s - 1
  {
    assert free == (free - s) + s;
    var q, r := (free - s) / s, (free - s) % s;
    assert free == (q + 1) * s + r;
    QuotientIs(free, s, q + 1, r);
  }

  lemma QuotientIs(n: nat, s: nat, q: nat, r: nat)
    requires s > 0 && n == q * s + r && r < s
    ensures n / s == q
  {
    var d, r' := n / s - q, n % s;
    assert d * s == (n / s) * s - q * s;
    assert d * s == r - r';
    MulBound(d, s);
  }

  lemma MulBound(d: int, s: nat)
    ensures d >= 1 ==> d * s >= s
    ensures d <= -1 ==> d * s + s <= 0
  {
    if d >= 1 {
      assert (d - 1) * s >= 0;
    } else if d <= -1 {
      assert (-1 - d) * s >= 0;
    }
  }

  lemma {:induction false} RoomAfterFit(pages: seq<Page>, s: nat, j: nat)
    requires s > 0 && j < |pages| && Fits(pages[j], s)
    requires forall i :: 0 <= i < |pages| ==> pages[i].used <= pages[i].size
    ensures Room(pages, s) > 0
    ensures Room(pages[j := pages[j].(used := pages[j].used + s)], s) == Room(pages, s) - 1
  {
    var p := pages[j].(used := pages[j].used + s);
    var next := pages[j := p];
    if j == 0 {
      assert next[1..] == pages[1..];
      OneFewer(pages[0].size - pages[0].used, s);
    } else {
      assert next[0] == pages[0] && next[1..] == pages[1..][j - 1 := p];
      RoomAfterFit(pages[1..], s, j - 1);
      RoomCons(pages, s);
      RoomCons(next, s);
      hide Room;
    }
  }

  lemma RoomCons(pages: seq<Page>, s: nat)
    requires pages != [] && s > 0
    requires forall i :: 0 <= i < |pages| ==> pages[i].used <= pages[i].size
    ensures Room(pages, s) == (pages[0].size - pages[0].used) / s + Room(pages[1..], s)
  {
  }

  lemma {:induction false} NoRoom(pages: seq<Page>, s: nat)
    requires s > 0
    requires forall i :: 0 <= i < |pages| ==> pages[i].used <= pages[i].size && !Fits(pages[i], s)
    ensures Room(pages, s) == 0
  {
    if pages != [] {
      var free := pages[0].size - pages[0].used;
      QuotientIs(free, s, 0, free);
      NoRoom(pages[1..], s);
    }
  }

  lemma {:induction false} FreshRoom(n: nat, size: nat, s: nat)
    requires s > 0
    ensures Room(Fresh(n, size), s) == n * (size / s)
  {
    if n > 0 {
      assert Fresh(n, size)[1..] == Fresh(n - 1, size);
      FreshRoom(n - 1, size, s);
      assert n * (size / s) == size / s + (n - 1) * (size / s);
    }
  }

  function Uniform(m: nat, s: nat): seq<nat> {
    seq(m, _ => s)
  }

  lemma {:induction false} UniformRun(a: Pool, s: nat, m: nat)
    requires Wf(a) && a.locked && a.pages != [] && 0 < s <= a.pages[0].size
    ensures forall k :: 0 <= k < m ==>
              (AllocAll(a, Uniform(m, s)).1[k].Some? <==> k < Room(a.pages, s))
    decreases m
  {
    if m > 0 {
      var requests := Uniform(m, s);
      assert requests[1..] == Uniform(m - 1, s);
      var (b, x) := Alloc(a, s);
      var j := FirstFit(a.pages, s, 0);
      if j < |a.pages| {
        RoomAfterFit(a.pages, s, j);
      } else {
        NoRoom(a.pages, s);
      }
      UniformRun(b, s, m - 1);
      assert AllocAll(a, requests).1 == [x] + AllocAll(b, requests[1..]).1;
    }
  }

  /** A locked arena of n pages of size S serves exactly n * floor(S / s) requests of size s,
      and they are the first ones. */
  lemma LockedCapacity(size: nat, n: nat, s: nat, m: nat)
    requires n > 0 && 0 < s <= size
    ensures forall k :: 0 <= k < m ==>
              (AllocAll(Init(size, n, true), Uniform(m, s)).1[k].Some? <==> k < n * (size / s))
  {
    FreshRoom(n, size, s);
    UniformRun(Init(size, n, true), s, m);
  }

  // ----- growth ------------------------------------------------------------------------

  /** A page added on demand is created exactly as large as the request that caused it, so it
      is full from the start and every page past the preallocated ones stays full. */
  lemma {:induction false} GrownPagesAreFull(a: Pool, requests: seq<nat>)
    requires Wf(a)
    ensures forall i :: |a.pages| <= i < |AllocAll(a, requests).0.pages| ==>
              AllocAll(a, requests).0.pages[i].used == AllocAll(a, requests).0.pages[i].size
    decreases |requests|
  {
    RunGrows(a, requests);
    if requests != [] {
      var b := Alloc(a, requests[0]).0;
      RunGrows(b, requests[1..]);
      GrownPagesAreFull(b, requests[1..]);
    }
  }
}

/** The allocator itself: a linked list of regions walked from the root on every request. */
module Arena {
  import opened CBytes
  import opened ArenaPool

  class Region {
    const size: nat
    var current: nat
    var eom: bool
    var next: Region?

    constructor (size: nat)
      ensures this.size == size && current == 0 && !eom && next == null
    {
      this.size := size;
      current, eom, next := 0, false, null;
    }
  }

  class Allocator {
    var root: Region?
    ghost var regions: seq<Region>

    ghost predicate Valid()
      reads this, regions
    {
      && (root == null <==> regions == [])
      && (regions != [] ==> root == regions[0] && regions[|regions| - 1].next == null)
      && (forall i :: 0 <= i < |regions| - 1 ==> regions[i].next == regions[i + 1])
      && (forall i, j :: 0 <= i < j < |regions| ==> regions[i] != regions[j])
      && (forall i :: 0 <= i < |regions| ==> regions[i].current <= regions[i].size)
    }

    ghost function View(): Pool
      reads this, regions
    {
      Pool(seq(|regions|, i requires 0 <= i < |regions| reads this, regions =>
                 Page(regions[i].size, regions[i].current)),
           regions != [] && regions[|regions| - 1].eom)
    }

    constructor (size: nat, prealloc: nat, lock: bool)
      ensures Valid() && fresh(regions) && View() == Init(size, prealloc, lock)
    {
      root := new Region(size);
      regions := [root];
      new;
      OnePage();
      if prealloc > 0 {
        var i := 1;
        var last: Region := root;
        while i < prealloc
          invariant 1 <= i <= prealloc && |regions| == i && last == regions[i - 1]
          invariant fresh(regions) && Valid()
          invariant View() == Pool(Fresh(i, size), false)
        {
          last := Link(last, size, 0);
          i := i + 1;
          FreshGrows(i, size);
        }
        if lock {
          Lock(last);
        }
      }
    }

    lemma OnePage()
      requires |regions| == 1 && regions[0].current == 0 && !regions[0].eom
      ensures View() == Pool(Fresh(1, regions[0].size), false)
    {
    }

    /** Marks the last region as the end of memory. */
    method Lock(last: Region)
      requires Valid() && regions != [] && last == regions[|regions| - 1]
      modifies last`eom
      ensures Valid() && View() == old(View()).(locked := true)
    {
      last.eom := true;
    }

    /** Reserves `n` bytes at the end of region `i`. */
    method Bump(cur: Region, ghost i: nat, n: nat) returns (at: nat)
      requires Valid() && i < |regions| && cur == regions[i] && cur.current + n <= cur.size
      modifies cur`current
      ensures Valid() && at == old(cur.current)
      ensures View() == Pool(old(View()).pages[i := Page(cur.size, at + n)], old(View()).locked)
    {
      at := cur.current;
      cur.current := cur.current + n;
      assert View().pages == old(View()).pages[i := Page(cur.size, at + n)];
    }

    /** Appends a region of `size` bytes of which `used` are reserved. */
    method Link(last: Region, size: nat, used: nat) returns (page: Region)
      requires Valid() && regions != [] && last == regions[|regions| - 1] && used <= size
      modifies this`regions, last`next
      ensures Valid() && fresh(page) && regions == old(regions) + [page]
      ensures View() == Pool(old(View()).pages + [Page(size, used)], false)
    {
      page := new Region(size);
      page.current := used;
      last.next := page;
      regions := regions + [page];
      assert forall k :: 0 <= k < |regions| - 2 ==> regions[k] != last;
      assert View().pages == old(View()).pages + [Page(size, used)];
    }

    /** Walks the list from the root to the first region with room for `n` bytes, or to the last. */
    method Walk(n: nat) returns (cur: Region, ghost i: nat)
      requires Valid() && root != null
      ensures i < |regions| && cur == regions[i]
      ensures forall k :: 0 <= k < i ==> !(regions[k].current + n <= regions[k].size)
      ensures !(cur.current + n <= cur.size) ==> i == |regions| - 1
    {
      cur, i := root, 0;
      while !(cur.current + n <= cur.size)
        invariant i < |regions| && cur == regions[i]
        invariant forall k :: 0 <= k < i ==> !(regions[k].current + n <= regions[k].size)
        decreases |regions| - i
      {
        LastHasNoNext(i);
        if cur.next == null {
          return;
        }
        cur, i := cur.next, i + 1;
      }
    }

    /** First fit from the root; grows the list at an unlocked tail. The block returned is the
        offset `at` inside region `where`. */
    method Alloc(n: nat) returns (where: Region?, at: nat)
      requires Valid()
      modifies this`regions, regions
      ensures Valid() && old(regions) <= regions && fresh(regions[|old(regions)|..])
      ensures View() == ArenaPool.Alloc(old(View()), n).0
      ensures var res := ArenaPool.Alloc(old(View()), n).1;
              if res.None? then where == null
              else res.value.page < |regions| && where == regions[res.value.page] && at == res.value.offset
    {
      hide FirstFit;
      at := 0;
      if root == null || n > root.size {
        return null, 0;
      }
      ghost var was := View();
      var cur, i := Walk(n);
      if cur.current + n <= cur.size {
        FirstFitUnique(was.pages, n, 0, i);
        at := Bump(cur, i, n);
        where := cur;
      } else {
        FirstFitUnique(was.pages, n, 0, |was.pages|);
        if cur.eom {
          return null, 0;
        }
        where := Link(cur, n, n);
      }
    }

    lemma LastHasNoNext(i: nat)
      requires Valid() && i < |regions|
      ensures regions[i].next == null <==> i == |regions| - 1
    {
      if i + 1 < |regions| {
        var following: Region := regions[i + 1];
        assert regions[i].next == following;
      }
    }
  }

  lemma {:induction false} FirstFitUnique(pages: seq<Page>, n: nat, k: nat, j: nat)
    requires k <= j <= |pages|
    requires forall i :: k <= i < j ==> !Fits(pages[i], n)
    requires j < |pages| ==> Fits(pages[j], n)
    ensures FirstFit(pages, n, k) == j
    decreases j - k
  {
    if k < j {
      FirstFitUnique(pages, n, k + 1, j);
    }
  }
}
