/** Counting the blocks of a page, and what each change of the heap does to the invariant. */
module HeapLemmas {
  import opened Heap

  // ---------------------------------------------------------------- counting

  ghost function Elements(s: seq<int>): set<int> {
    set a | a in s
  }

  lemma {:induction false} DistinctCount(s: seq<int>)
    requires Distinct(s)
    ensures |Elements(s)| == |s|
  {
    if s == [] {
      assert Elements(s) == {};
    } else {
      DistinctCount(s[1..]);
      assert s == [s[0]] + s[1..];
      assert Elements(s) == Elements(s[1..]) + {s[0]};
    }
  }

  /** The live blocks of a page. */
  ghost function LiveIn(g: Shape, i: nat): set<int> {
    set p | p in g.live && g.live[p] == Sub(i)
  }

  /** A live address inside a subdivided page is a block of that page. */
  lemma LiveInPage(h: State, g: Shape, x: int, i: nat, a: int)
    requires InvBut(h, g, x) && i in g.all && a in g.live && h.page[i] <= a < h.page[i] + PAGE_SIZE
    ensures g.live[a] == Sub(i)
  {
    if g.live[a].Sub? && g.live[a].pr != i {
      BlockFits(h.page[g.live[a].pr], h.btype[g.live[a].pr], a);
      PagesApart(h.page[i], h.page[g.live[a].pr]);
    }
  }

  lemma SplitCount(free: seq<int>, live: set<int>, blocks: set<int>)
    requires Distinct(free)
    requires forall a :: a in blocks <==> a in free || a in live
    requires forall a :: a in free ==> a !in live
    ensures |free| + |live| == |blocks|
  {
    DistinctCount(free);
    forall a
      ensures a in Elements(free) + live <==> a in blocks
    {
      assert a in Elements(free) <==> a in free;
    }
    assert Elements(free) + live == blocks;
    assert Elements(free) !! live;
  }

  /** Free and live blocks add up to the blocks of the page. */
  lemma FreePlusLive(h: State, g: Shape, x: int, i: nat)
    requires InvBut(h, g, x) && i in g.all
    ensures h.nfree[i] + |LiveIn(g, i)| == PerPage(h.btype[i])
  {
    var blocks := Blocks(h.page[i], Size(h.btype[i]), PerPage(h.btype[i]));
    BlocksCount(h.page[i], Size(h.btype[i]), PerPage(h.btype[i]));
    assert FreeList(h, g, i) && Partition(h, g, i);
    forall a
      ensures a in blocks <==> a in g.free[i] || a in LiveIn(g, i)
      ensures a in g.free[i] ==> a !in LiveIn(g, i)
    {
      assert IsBlock(h.page[i], h.btype[i], a) <==> a in blocks;
      if a in blocks && a in g.live {
        BlockFits(h.page[i], h.btype[i], a);
        LiveInPage(h, g, x, i, a);
      }
    }
    SplitCount(g.free[i], LiveIn(g, i), blocks);
  }

  // ---------------------------------------------------------------- taking and giving a block

  lemma ChainPush(mem: Mem, list: seq<int>, p: int)
    requires FreeChain(mem, list) && Distinct(list) && p !in list
    ensures FreeChain(mem[p := if list == [] then 0 else list[0]], [p] + list) && Distinct([p] + list)
  {
    var mem', list' := mem[p := if list == [] then 0 else list[0]], [p] + list;
    forall k | 0 <= k < |list'|
      ensures Load(mem', list'[k]) == After(list', k, 0)
    {
      if k > 0 {
        assert list'[k] == list[k - 1] && list[k - 1] != p;
        assert Load(mem, list[k - 1]) == After(list, k - 1, 0);
      }
    }
  }

  lemma ChainPop(mem: Mem, list: seq<int>)
    requires FreeChain(mem, list) && Distinct(list) && list != []
    ensures FreeChain(mem, list[1..]) && Distinct(list[1..])
    ensures Load(mem, list[0]) == if |list| > 1 then list[1] else 0
  {
    forall k | 0 <= k < |list[1..]|
      ensures Load(mem, list[1..][k]) == After(list[1..], k, 0)
    {
      assert Load(mem, list[k + 1]) == After(list, k + 1, 0);
    }
    assert Load(mem, list[0]) == After(list, 0, 0);
  }

  lemma ChainFrame(mem: Mem, p: int, v: int, list: seq<int>)
    requires FreeChain(mem, list) && p !in list
    ensures FreeChain(mem[p := v], list)
  {
    forall k | 0 <= k < |list|
      ensures Load(mem[p := v], list[k]) == After(list, k, 0)
    {
      assert Load(mem, list[k]) == After(list, k, 0);
    }
  }

  /** The `doalloc` path: the head of a page's free list becomes live. */
  function Take(h: State, i: nat): State
    requires i < |h.page| && i < |h.offset| && i < |h.nfree| && h.nfree[i] > 0
  {
    var next := Load(h.mem, h.page[i] + h.offset[i]);
    h.(nfree := h.nfree[i := h.nfree[i] - 1],
       offset := h.offset[i := if next != 0 && next >= h.page[i] then next - h.page[i] else INVALID_OFFSET])
  }

  ghost function TakeShape(g: Shape, i: nat): Shape
    requires i < |g.free| && g.free[i] != []
  {
    g.(free := g.free[i := g.free[i][1..]], live := g.live[g.free[i][0] := Sub(i)])
  }

  /** What the head of a nonempty free list is. */
  lemma TakeHead(h: State, g: Shape, x: int, i: nat)
    requires InvBut(h, g, x) && i in g.all && h.nfree[i] > 0
    ensures g.free[i] != [] && g.free[i][0] == h.page[i] + h.offset[i] && g.free[i][0] !in g.live
    ensures IsBlock(h.page[i], h.btype[i], g.free[i][0])
    ensures g.free[i] == [g.free[i][0]] + g.free[i][1..]
    ensures h.page[i] <= g.free[i][0] < h.page[i] + PAGE_SIZE
    ensures |g.free[i]| > 1 ==> h.page[i] <= g.free[i][1]
  {
    hide Lists, Pages, FreeChain, Distinct, IsBlock;
    assert FreeList(h, g, i) && Partition(h, g, i);
    assert g.free[i][0] in g.free[i];
    BlockFits(h.page[i], h.btype[i], g.free[i][0]);
    if |g.free[i]| > 1 {
      assert g.free[i][1] in g.free[i];
      BlockFits(h.page[i], h.btype[i], g.free[i][1]);
    }
  }

  lemma TakeOffset(h: State, i: nat, next: int)
    requires i < |h.page| && i < |h.offset| && i < |h.nfree| && h.nfree[i] > 0
    requires Load(h.mem, h.page[i] + h.offset[i]) == next && (next == 0 || next >= h.page[i] > 0)
    ensures Take(h, i) == h.(nfree := h.nfree[i := h.nfree[i] - 1],
                             offset := h.offset[i := if next == 0 then INVALID_OFFSET else next - h.page[i]])
  {
  }

  lemma TakeOwn(h: State, g: Shape, i: nat)
    requires Shaped(h, g) && i in g.all && FreeList(h, g, i) && Partition(h, g, i) && h.nfree[i] > 0
    requires h.page[i] > 0 && g.free[i][0] !in g.live && h.page[i] <= g.free[i][0]
    requires |g.free[i]| > 1 ==> h.page[i] <= g.free[i][1]
    ensures Shaped(Take(h, i), TakeShape(g, i))
    ensures FreeList(Take(h, i), TakeShape(g, i), i) && Partition(Take(h, i), TakeShape(g, i), i)
  {
    hide FreeChain, Distinct, Load, IsBlock, Take;
    var list := g.free[i];
    ChainPop(h.mem, list);
    HeadApart(list);
    TakeOffset(h, i, if |list| > 1 then list[1] else 0);
  }

  /** The head of a list of distinct elements is not in the rest. */
  lemma HeadApart(list: seq<int>)
    requires Distinct(list) && list != []
    ensures forall a :: a in list[1..] <==> a in list && a != list[0]
  {
    assert list == [list[0]] + list[1..];
  }

  lemma TakeOther(h: State, g: Shape, x: int, i: nat, j: nat)
    requires InvBut(h, g, x) && i in g.all && h.nfree[i] > 0 && j in g.all && i != j
    ensures g.free[i] != [] && Shaped(Take(h, i), TakeShape(g, i))
    ensures FreeList(Take(h, i), TakeShape(g, i), j) && Partition(Take(h, i), TakeShape(g, i), j)
  {
    TakeHead(h, g, x, i);
    assert FreeList(h, g, j) && Partition(h, g, j);
    PagesApart(h.page[i], h.page[j]);
    assert !IsBlock(h.page[j], h.btype[j], g.free[i][0]) by {
      if IsBlock(h.page[j], h.btype[j], g.free[i][0]) {
        BlockFits(h.page[j], h.btype[j], g.free[i][0]);
      }
    }
  }

  lemma TakeLists(h: State, g: Shape, x: int, i: nat)
    requires InvBut(h, g, x) && i in g.all && h.nfree[i] > 0 && g.free[i] != []
    ensures Shaped(Take(h, i), TakeShape(g, i)) && Lists(Take(h, i), TakeShape(g, i))
  {
    hide Chain, Distinct, Pages, FreeList, Partition;
  }

  lemma TakePages(h: State, g: Shape, x: int, i: nat)
    requires InvBut(h, g, x) && i in g.all && h.nfree[i] > 0 && g.free[i] != []
    ensures Shaped(Take(h, i), TakeShape(g, i)) && Pages(Take(h, i), TakeShape(g, i))
  {
    TakeHead(h, g, x, i);
  }

  lemma TakeKeeps(h: State, g: Shape, x: int, i: nat)
    requires InvBut(h, g, x) && i in g.all && h.nfree[i] > 0 && (x == NULL || x == i)
    ensures g.free[i] != [] && g.free[i][0] == h.page[i] + h.offset[i] > 0 && g.free[i][0] !in g.live
    ensures Inv(Take(h, i), TakeShape(g, i))
  {
    TakeHead(h, g, x, i);
    FreePlusLive(h, g, x, i);
    TakeLists(h, g, x, i);
    TakePages(h, g, x, i);
    TakeOwn(h, g, i);
    forall j | j in g.all
      ensures FreeList(Take(h, i), TakeShape(g, i), j) && Partition(Take(h, i), TakeShape(g, i), j)
    {
      if j != i {
        TakeOther(h, g, x, i, j);
      }
    }
  }

  /** subpage_kfree before the page may be released: the block goes to the head of the free list. */
  function Give(h: State, i: nat, p: int): State
    requires i < |h.page| && i < |h.offset| && i < |h.nfree| && p >= h.page[i]
  {
    h.(mem := h.mem[p := if h.offset[i] == INVALID_OFFSET then 0 else h.page[i] + h.offset[i]],
       offset := h.offset[i := p - h.page[i]], nfree := h.nfree[i := h.nfree[i] + 1])
  }

  ghost function GiveShape(g: Shape, i: nat, p: int): Shape
    requires i < |g.free|
  {
    g.(free := g.free[i := [p] + g.free[i]], live := g.live - {p})
  }

  lemma GiveLink(h: State, i: nat, p: int, free: seq<int>)
    requires i < |h.page| && i < |h.offset| && i < |h.nfree| && p >= h.page[i]
    requires h.offset[i] == if free == [] then INVALID_OFFSET else free[0] - h.page[i]
    requires free != [] ==> free[0] < h.page[i] + PAGE_SIZE
    ensures Give(h, i, p) == h.(mem := h.mem[p := if free == [] then 0 else free[0]],
                                offset := h.offset[i := p - h.page[i]], nfree := h.nfree[i := h.nfree[i] + 1])
  {
  }

  lemma GiveOwn(h: State, g: Shape, i: nat, p: int)
    requires Shaped(h, g) && i in g.all && FreeList(h, g, i) && Partition(h, g, i)
    requires p in g.live && IsBlock(h.page[i], h.btype[i], p) && h.page[i] <= p
    requires g.free[i] != [] ==> g.free[i][0] < h.page[i] + PAGE_SIZE
    ensures Shaped(Give(h, i, p), GiveShape(g, i, p))
    ensures FreeList(Give(h, i, p), GiveShape(g, i, p), i) && Partition(Give(h, i, p), GiveShape(g, i, p), i)
  {
    ChainPush(h.mem, g.free[i], p);
    GiveLink(h, i, p, g.free[i]);
  }

  lemma GiveOther(h: State, g: Shape, i: nat, p: int, j: nat)
    requires Shaped(h, g) && j in g.all && FreeList(h, g, j) && Partition(h, g, j)
    requires i < NPAGEREFS && i != j && h.page[i] <= p && !IsBlock(h.page[j], h.btype[j], p)
    ensures Shaped(Give(h, i, p), GiveShape(g, i, p))
    ensures FreeList(Give(h, i, p), GiveShape(g, i, p), j) && Partition(Give(h, i, p), GiveShape(g, i, p), j)
  {
    ChainFrame(h.mem, p, Give(h, i, p).mem[p], g.free[j]);
  }

  /** A live block of one page is no block of another. */
  lemma NotInOther(h: State, g: Shape, x: int, i: nat, p: int, j: nat)
    requires InvBut(h, g, x) && i in g.all && j in g.all && i != j && IsBlock(h.page[i], h.btype[i], p)
    ensures !IsBlock(h.page[j], h.btype[j], p)
  {
    BlockFits(h.page[i], h.btype[i], p);
    PagesApart(h.page[i], h.page[j]);
    if IsBlock(h.page[j], h.btype[j], p) {
      BlockFits(h.page[j], h.btype[j], p);
    }
  }

  lemma GivePages(h: State, g: Shape, i: nat, p: int)
    requires Inv(h, g) && i < NPAGEREFS && h.page[i] <= p
    ensures Shaped(Give(h, i, p), GiveShape(g, i, p))
    ensures Lists(Give(h, i, p), GiveShape(g, i, p)) && Pages(Give(h, i, p), GiveShape(g, i, p))
  {
  }

  lemma GiveKeeps(h: State, g: Shape, i: nat, p: int)
    requires Inv(h, g) && i in g.all && p in g.live && g.live[p] == Sub(i)
    ensures p >= h.page[i] && InvBut(Give(h, i, p), GiveShape(g, i, p), i)
  {
    assert FreeList(h, g, i) && Partition(h, g, i);
    BlockFits(h.page[i], h.btype[i], p);
    if g.free[i] != [] {
      assert g.free[i][0] in g.free[i];
      BlockFits(h.page[i], h.btype[i], g.free[i][0]);
    }
    GivePages(h, g, i, p);
    GiveOwn(h, g, i, p);
    forall j | j in g.all
      ensures FreeList(Give(h, i, p), GiveShape(g, i, p), j) && Partition(Give(h, i, p), GiveShape(g, i, p), j)
    {
      if j != i {
        NotInOther(h, g, NULL, i, p, j);
        assert FreeList(h, g, j) && Partition(h, g, j);
        GiveOther(h, g, i, p, j);
      }
    }
  }
}
