/** State and invariant of the kernel heap, os161/kern/lib/kheap.c: pages cut into blocks of one size,
    their free lists threaded through the free blocks, and a table of page references on two
    kinds of linked list. */
module Heap {

  const PAGE_SIZE: nat := 4096
  const NSIZES: nat := 8
  const NPAGEREFS: nat := 256
  const INVALID_OFFSET: nat := 0xffff
  const LARGEST_SUBPAGE_SIZE: nat := 2048
  const NULL: int := -1

  function Size(t: nat): (r: nat)
    requires t < NSIZES
    ensures 16 <= r <= 2048
  {
    [16, 32, 64, 128, 256, 512, 1024, 2048][t]
  }

  /** Blocks per page. */
  function PerPage(t: nat): (r: nat)
    requires t < NSIZES
    ensures 2 <= r <= 256
  {
    [256, 128, 64, 32, 16, 8, 4, 2][t]
  }

  lemma SizeDivides(t: nat)
    requires t < NSIZES
    ensures PAGE_SIZE / Size(t) == PerPage(t) && PerPage(t) * Size(t) == PAGE_SIZE && Size(t) % 16 == 0
  {
  }

  /** Word memory: what has been stored, by address. */
  type Mem = map<int, int>

  function Load(mem: Mem, a: int): int {
    if a in mem then mem[a] else 0
  }

  /** The page references as parallel columns, with the page address and the block type apart, the list heads and
      the memory. A null link is -1; a null free-list pointer, being an address, is 0. */
  datatype State = State(
    nextSame: seq<int>, nextAll: seq<int>, page: seq<nat>, btype: seq<nat>, offset: seq<nat>, nfree: seq<nat>,
    inuse: seq<bool>, sizebases: seq<int>, allbase: int, mem: Mem)

  /** An allocation: a block of the page of a page reference, or whole pages. */
  datatype Alloc = Sub(pr: nat) | Big(pages: nat)

  /** What the links and the memory stand for: the lists of page references, the free list of each page, and
      the allocations that are live. */
  datatype Shape = Shape(all: seq<nat>, byType: seq<seq<nat>>, free: seq<seq<int>>, live: map<int, Alloc>)

  ghost predicate Distinct<T>(s: seq<T>) {
    forall i, j :: 0 <= i < j < |s| ==> s[i] != s[j]
  }

  /** The element after the one at `k`, or `end` after the last. */
  function After<T>(list: seq<T>, k: nat, end: T): T {
    if k + 1 < |list| then list[k + 1] else end
  }

  /** Following `next` from `base` visits the list and ends. */
  ghost predicate Chain(next: seq<int>, base: int, list: seq<nat>) {
    && (forall k :: 0 <= k < |list| ==> list[k] < |next|)
    && base == (if list == [] then NULL else list[0])
    && forall k {:trigger next[list[k]]} :: 0 <= k < |list| ==> next[list[k]] == After<int>(list, k, NULL)
  }

  /** Each free block holds the address of the next one; the last holds 0. */
  ghost predicate FreeChain(mem: Mem, list: seq<int>) {
    forall k {:trigger Load(mem, list[k])} :: 0 <= k < |list| ==> Load(mem, list[k]) == After(list, k, 0)
  }

  /** The `n` block addresses from `a` on. */
  ghost function Blocks(a: int, size: nat, n: nat): set<int>
    decreases n
  {
    if n == 0 then {} else {a} + Blocks(a + size, size, n - 1)
  }

  ghost predicate IsBlock(page: nat, t: nat, a: int)
    requires t < NSIZES
  {
    a in Blocks(page, Size(t), PerPage(t))
  }

  // ---------------------------------------------------------------- the invariant

  ghost predicate Shaped(h: State, g: Shape) {
    && |h.nextSame| == |h.nextAll| == |h.page| == |h.btype| == |h.offset| == |h.nfree| == |h.inuse| == |g.free| == NPAGEREFS
    && |h.sizebases| == |g.byType| == NSIZES
    && forall i :: i in g.all ==> i < NPAGEREFS && h.btype[i] < NSIZES
  }

  /** Each page reference in use is on the all-list once and on the list of its own size once. */
  ghost predicate Lists(h: State, g: Shape)
    requires Shaped(h, g)
  {
    && Distinct(g.all) && Chain(h.nextAll, h.allbase, g.all)
    && (forall t :: 0 <= t < NSIZES ==> Distinct(g.byType[t]) && Chain(h.nextSame, h.sizebases[t], g.byType[t]))
    && (forall i :: 0 <= i < NPAGEREFS ==> (h.inuse[i] <==> i in g.all))
    && (forall t, i :: 0 <= t < NSIZES ==> (i in g.byType[t] <==> i in g.all && h.btype[i] == t))
  }

  /** Bytes at the disposal of the owner of a live allocation. */
  function Extent(h: State, a: Alloc): nat {
    match a
    case Sub(i) => if i < |h.btype| && h.btype[i] < NSIZES then Size(h.btype[i]) else 0
    case Big(n) => n * PAGE_SIZE
  }

  /** Two address ranges have no address in common. */
  predicate Apart(p: int, n: int, q: int, m: int) {
    p + n <= q || q + m <= p
  }

  /** Pages are distinct, and whole-page allocations overlap neither each other nor a subdivided page. */
  ghost predicate Pages(h: State, g: Shape)
    requires Shaped(h, g)
  {
    && (forall i :: i in g.all ==> h.page[i] > 0 && h.page[i] % PAGE_SIZE == 0)
    && (forall i, j :: i in g.all && j in g.all && i != j ==> h.page[i] != h.page[j])
    && (forall p :: p in g.live && g.live[p].Sub? ==>
          g.live[p].pr in g.all && IsBlock(h.page[g.live[p].pr], h.btype[g.live[p].pr], p))
    && (forall p :: p in g.live && g.live[p].Big? ==> p > 0 && p % PAGE_SIZE == 0 && g.live[p].pages > 0)
    && (forall p, i :: p in g.live && g.live[p].Big? && i in g.all ==>
          Apart(p, g.live[p].pages * PAGE_SIZE, h.page[i], PAGE_SIZE))
    && (forall p, q :: p in g.live && q in g.live && p != q && g.live[p].Big? && g.live[q].Big? ==>
          Apart(p, g.live[p].pages * PAGE_SIZE, q, g.live[q].pages * PAGE_SIZE))
  }

  /** A page's free list is a chain of `nfree` distinct blocks of the page, and the offset leads to it. */
  ghost predicate FreeList(h: State, g: Shape, i: nat)
    requires Shaped(h, g) && i in g.all
  {
    && |g.free[i]| == h.nfree[i] && Distinct(g.free[i]) && FreeChain(h.mem, g.free[i])
    && (forall a :: a in g.free[i] ==> IsBlock(h.page[i], h.btype[i], a))
    && h.offset[i] == if g.free[i] == [] then INVALID_OFFSET else g.free[i][0] - h.page[i]
  }

  /** Every block of a page is either free or live. */
  ghost predicate Partition(h: State, g: Shape, i: nat)
    requires Shaped(h, g) && i in g.all
  {
    forall a :: IsBlock(h.page[i], h.btype[i], a) ==> (a in g.free[i] <==> a !in g.live)
  }

  /** The heap invariant, with `x` a page that may be wholly free: no other one is left on a list. */
  ghost predicate InvBut(h: State, g: Shape, x: int) {
    && Shaped(h, g) && Lists(h, g) && Pages(h, g)
    && (forall i :: i in g.all ==> FreeList(h, g, i) && Partition(h, g, i))
    && (forall i :: i in g.all && i != x ==> h.nfree[i] < PerPage(h.btype[i]))
  }

  ghost predicate Inv(h: State, g: Shape) {
    InvBut(h, g, NULL)
  }

  // ---------------------------------------------------------------- block geometry

  /** Blocks lie between `a` and `end`, and distinct ones do not overlap. */
  lemma {:induction false} BlocksSpread(a: int, size: nat, n: nat, end: int)
    requires end == a + n * size
    ensures forall x :: x in Blocks(a, size, n) ==> a <= x && x + size <= end
    ensures forall x, y :: x in Blocks(a, size, n) && y in Blocks(a, size, n) && x != y ==> Apart(x, size, y, size)
    decreases n
  {
    if n > 0 {
      BlocksSpread(a + size, size, n - 1, end);
      assert (n - 1) * size >= 0;
    }
  }

  lemma {:induction false} BlocksAligned(a: int, size: nat, n: nat, base: int)
    requires size > 0 && (a - base) % size == 0
    ensures forall x :: x in Blocks(a, size, n) ==> (x - base) % size == 0
    decreases n
  {
    if n > 0 {
      NextMultiple(a - base, size);
      BlocksAligned(a + size, size, n - 1, base);
    }
  }

  lemma MulLe(a: int, b: int, n: nat)
    requires a <= b
    ensures n * a <= n * b
  {
  }

  lemma ModUnique(x: int, size: nat, q: int)
    requires size > 0 && x == size * q
    ensures x % size == 0
  {
    var q', r' := x / size, x % size;
    assert x == size * q' + r';
    if q < q' {
      MulLe(q + 1, q', size);
    } else if q' < q {
      MulLe(q' + 1, q, size);
    }
  }

  lemma NextMultiple(x: int, size: nat)
    requires size > 0 && x % size == 0
    ensures (x + size) % size == 0
  {
    assert x + size == size * (x / size + 1);
    ModUnique(x + size, size, x / size + 1);
  }

  lemma {:induction false} BlocksCount(a: int, size: nat, n: nat)
    requires size > 0
    ensures |Blocks(a, size, n)| == n
    decreases n
  {
    if n > 0 {
      BlocksCount(a + size, size, n - 1);
      BlocksSpread(a + size, size, n - 1, a + size + (n - 1) * size);
      assert a !in Blocks(a + size, size, n - 1);
    }
  }

  /** A block fits in its page and starts at a multiple of its size. */
  lemma BlockFits(page: nat, t: nat, a: int)
    requires t < NSIZES && IsBlock(page, t, a)
    ensures page <= a && a + Size(t) <= page + PAGE_SIZE && (a - page) % Size(t) == 0
  {
    SizeDivides(t);
    BlocksSpread(page, Size(t), PerPage(t), page + PAGE_SIZE);
    BlocksAligned(page, Size(t), PerPage(t), page);
  }

  lemma BlocksApart(page: nat, t: nat, p: int, q: int)
    requires t < NSIZES && IsBlock(page, t, p) && IsBlock(page, t, q) && p != q
    ensures Apart(p, Size(t), q, Size(t))
  {
    SizeDivides(t);
    BlocksSpread(page, Size(t), PerPage(t), page + PAGE_SIZE);
  }

  lemma PagesApart(p: nat, q: nat)
    requires p % PAGE_SIZE == 0 && q % PAGE_SIZE == 0 && p != q
    ensures Apart(p, PAGE_SIZE, q, PAGE_SIZE)
  {
  }

  /** Live allocations never overlap. */
  lemma LiveApart(h: State, g: Shape, x: int, p: int, q: int)
    requires InvBut(h, g, x) && p in g.live && q in g.live && p != q
    ensures Apart(p, Extent(h, g.live[p]), q, Extent(h, g.live[q]))
  {
    if g.live[p].Sub? {
      BlockFits(h.page[g.live[p].pr], h.btype[g.live[p].pr], p);
    }
    if g.live[q].Sub? {
      BlockFits(h.page[g.live[q].pr], h.btype[g.live[q].pr], q);
    }
    if g.live[p].Sub? && g.live[q].Sub? {
      var i, j := g.live[p].pr, g.live[q].pr;
      if i == j {
        BlocksApart(h.page[i], h.btype[i], p, q);
      } else {
        PagesApart(h.page[i], h.page[j]);
      }
    }
  }

  /** A free block lies outside every live allocation, so owners cannot damage a free list. */
  lemma FreeOutsideLive(h: State, g: Shape, x: int, i: nat, a: int, p: int)
    requires InvBut(h, g, x) && i in g.all && a in g.free[i] && p in g.live
    ensures Apart(a, Size(h.btype[i]), p, Extent(h, g.live[p]))
  {
    assert FreeList(h, g, i) && Partition(h, g, i);
    BlockFits(h.page[i], h.btype[i], a);
    if g.live[p].Sub? {
      var j := g.live[p].pr;
      BlockFits(h.page[j], h.btype[j], p);
      if i == j {
        BlocksApart(h.page[i], h.btype[i], a, p);
      } else {
        PagesApart(h.page[i], h.page[j]);
      }
    }
  }

  /** A store outside a page's free blocks keeps its free list. */
  lemma StoreOutside(h: State, g: Shape, i: nat, a: int, v: int)
    requires Shaped(h, g) && i in g.all && FreeList(h, g, i) && Partition(h, g, i) && a !in g.free[i]
    ensures var h' := h.(mem := h.mem[a := v]);
            Shaped(h', g) && FreeList(h', g, i) && Partition(h', g, i)
  {
    hide IsBlock, Distinct;
    forall k | 0 <= k < |g.free[i]|
      ensures Load(h.mem[a := v], g.free[i][k]) == After(g.free[i], k, 0)
    {
      assert Load(h.mem, g.free[i][k]) == After(g.free[i], k, 0);
    }
  }

  lemma StoreElsewhere(h: State, g: Shape, mem: Mem)
    requires Shaped(h, g) && Lists(h, g) && Pages(h, g)
    ensures var h' := h.(mem := mem);
            Shaped(h', g) && Lists(h', g) && Pages(h', g)
  {
    hide Chain, Distinct, IsBlock, Apart;
  }

  /** A store inside a live allocation keeps the whole invariant, and no byte of the stored word is part of a free
      block. */
  lemma ClientStoreKeeps(h: State, g: Shape, x: int, p: int, a: int, v: int)
    requires InvBut(h, g, x) && p in g.live && p <= a < p + Extent(h, g.live[p])
    ensures InvBut(h.(mem := h.mem[a := v]), g, x)
    ensures a + 4 <= p + Extent(h, g.live[p]) ==>
              forall i, b :: i in g.all && b in g.free[i] ==> Apart(a, 4, b, Size(h.btype[i]))
  {
    hide Lists, Pages, FreeList, Partition, Extent;
    var h' := h.(mem := h.mem[a := v]);
    StoreElsewhere(h, g, h.mem[a := v]);
    forall i | i in g.all
      ensures FreeList(h', g, i) && Partition(h', g, i)
    {
      assert FreeList(h, g, i) && Partition(h, g, i);
      if a in g.free[i] {
        FreeOutsideLive(h, g, x, i, a, p);
      }
      StoreOutside(h, g, i, a, v);
    }
    forall i, b | i in g.all && b in g.free[i]
      ensures Apart(b, Size(h.btype[i]), p, Extent(h, g.live[p]))
    {
      FreeOutsideLive(h, g, x, i, b, p);
    }
  }
}
