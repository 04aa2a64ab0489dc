/** kmalloc and kfree, os161/kern/lib/kheap.c. */
module KHeap {
  import opened Heap
  import opened HeapLemmas
  import opened HeapPages
  import opened Words

  /** Memory is as before outside `n` bytes from `p` on. */
  ghost predicate SameOutside(mem: Mem, mem': Mem, p: int, n: nat) {
    forall a :: !(p <= a < p + n) ==> Load(mem', a) == Load(mem, a)
  }

  ghost predicate SameInside(mem: Mem, mem': Mem, p: int, n: nat) {
    forall a :: p <= a < p + n ==> Load(mem', a) == Load(mem, a)
  }

  /** What kmalloc writes lies in fresh pages, so no owner's data changes. */
  lemma OwnersKeepData(h: State, g: Shape, mem: Mem, given: int)
    requires Inv(h, g) && (given == 0 || FreshPages(h, g, given, 1)) && SameOutside(h.mem, mem, given, PAGE_SIZE)
    requires given == 0 ==> mem == h.mem
    ensures forall q :: q in g.live ==> SameInside(h.mem, mem, q, Extent(h, g.live[q]))
  {
    if given != 0 {
      forall q | q in g.live
        ensures Apart(given, PAGE_SIZE, q, Extent(h, g.live[q]))
      {
        if g.live[q].Sub? {
          BlockFits(h.page[g.live[q].pr], h.btype[g.live[q].pr], q);
        }
      }
    }
  }

  /** What kfree writes lies in the block it frees, so the data of the others is untouched. */
  lemma OthersKeepData(h: State, g: Shape, mem: Mem, p: int)
    requires Inv(h, g) && p in g.live && SameOutside(h.mem, mem, p, Extent(h, g.live[p]))
    ensures forall q :: q in g.live && q != p ==> SameInside(h.mem, mem, q, Extent(h, g.live[q]))
  {
    forall q | q in g.live && q != p
      ensures Apart(p, Extent(h, g.live[p]), q, Extent(h, g.live[q]))
    {
      LiveApart(h, g, NULL, p, q);
    }
  }

  /** One more block at the end. */
  lemma {:induction false} BlocksSnoc(a: int, size: nat, n: nat)
    ensures Blocks(a, size, n + 1) == Blocks(a, size, n) + {a + n * size}
    decreases n
  {
    if n > 0 {
      BlocksSnoc(a + size, size, n - 1);
      assert a + size + (n - 1) * size == a + n * size;
    } else {
      assert Blocks(a + size, size, 0) == {};
    }
  }

  /** Changing what is live outside a page does not concern the page. */
  lemma LiveElsewhere(h: State, g: Shape, live: map<int, Alloc>, i: nat)
    requires Shaped(h, g) && i in g.all && FreeList(h, g, i) && Partition(h, g, i)
    requires forall a :: IsBlock(h.page[i], h.btype[i], a) ==> (a in g.live <==> a in live)
    ensures FreeList(h, g.(live := live), i) && Partition(h, g.(live := live), i)
  {
  }

  /** A page-aligned address outside a page is none of its blocks. */
  lemma NotABlock(page: nat, t: nat, p: int, n: int)
    requires t < NSIZES && n > 0 && Apart(p, n * PAGE_SIZE, page, PAGE_SIZE)
    ensures !IsBlock(page, t, p)
  {
    if IsBlock(page, t, p) {
      BlockFits(page, t, p);
    }
  }

  lemma BigPages(h: State, g: Shape, p: int, n: nat)
    requires Inv(h, g) && n > 0 && FreshPages(h, g, p, n)
    ensures p !in g.live && Pages(h, g.(live := g.live[p := Big(n)]))
  {
    if p in g.live && g.live[p].Sub? {
      BlockFits(h.page[g.live[p].pr], h.btype[g.live[p].pr], p);
    }
  }

  lemma FreshApart(h: State, g: Shape, p: int, n: nat, i: nat)
    requires Shaped(h, g) && FreshPages(h, g, p, n) && i in g.all
    ensures Apart(p, n * PAGE_SIZE, h.page[i], PAGE_SIZE)
  {
  }

  lemma LiveLists(h: State, g: Shape, live: map<int, Alloc>)
    requires Shaped(h, g) && Lists(h, g)
    ensures Shaped(h, g.(live := live)) && Lists(h, g.(live := live))
  {
    hide Chain, Distinct;
  }

  /** A whole-page allocation that overlaps nothing keeps the invariant. */
  lemma BigAllocKeeps(h: State, g: Shape, p: int, n: nat)
    requires Inv(h, g) && n > 0 && FreshPages(h, g, p, n)
    ensures p !in g.live && Inv(h, g.(live := g.live[p := Big(n)]))
  {
    hide Lists, Pages, FreeList, Partition, FreshPages;
    BigPages(h, g, p, n);
    LiveLists(h, g, g.live[p := Big(n)]);
    forall i | i in g.all
      ensures FreeList(h, g.(live := g.live[p := Big(n)]), i) && Partition(h, g.(live := g.live[p := Big(n)]), i)
    {
      assert FreeList(h, g, i) && Partition(h, g, i);
      FreshApart(h, g, p, n, i);
      NotABlock(h.page[i], h.btype[i], p, n);
      LiveElsewhere(h, g, g.live[p := Big(n)], i);
    }
  }

  lemma AllChain(h: State, g: Shape)
    requires Inv(h, g)
    ensures Shaped(h, g) && Chain(h.nextAll, h.allbase, g.all)
  {
  }

  lemma FewerPages(h: State, g: Shape, p: int)
    requires Shaped(h, g) && Pages(h, g)
    ensures Pages(h, g.(live := g.live - {p}))
  {
  }

  lemma BigFreeLists(h: State, g: Shape, p: int)
    requires Inv(h, g) && p in g.live && g.live[p].Big?
    ensures forall i :: i in g.all ==>
                          FreeList(h, g.(live := g.live - {p}), i) && Partition(h, g.(live := g.live - {p}), i)
  {
    forall i | i in g.all
      ensures FreeList(h, g.(live := g.live - {p}), i) && Partition(h, g.(live := g.live - {p}), i)
    {
      assert FreeList(h, g, i) && Partition(h, g, i);
      NotABlock(h.page[i], h.btype[i], p, g.live[p].pages);
      LiveElsewhere(h, g, g.live - {p}, i);
    }
  }

  lemma BigFreeKeeps(h: State, g: Shape, p: int)
    requires Inv(h, g) && p in g.live && g.live[p].Big?
    ensures Inv(h, g.(live := g.live - {p}))
  {
    hide Lists, Pages, FreeList, Partition;
    FewerPages(h, g, p);
    LiveLists(h, g, g.live - {p});
    BigFreeLists(h, g, p);
  }

  /** `t` is the smallest size class that holds `sz` bytes. */
  ghost predicate IsClass(sz: nat, t: nat) {
    t < NSIZES && sz <= Size(t) && forall s :: 0 <= s < t ==> Size(s) < sz
  }

  /** A block is less than twice as large as what is asked for, unless that is less than 16 bytes. */
  lemma ClassIsTight(sz: nat, t: nat)
    requires IsClass(sz, t)
    ensures Size(t) < 2 * sz || Size(t) == 16
  {
    if t > 0 {
      assert Size(t) == 2 * Size(t - 1) && Size(t - 1) < sz;
    }
  }

  method BlockTypeFor(sz: nat) returns (t: nat)
    requires sz <= LARGEST_SUBPAGE_SIZE
    ensures IsClass(sz, t)
  {
    t := 0;
    while Size(t) < sz
      invariant t < NSIZES && forall s :: 0 <= s < t ==> Size(s) < sz
      decreases NSIZES - t
    {
      t := t + 1;
    }
  }

  /** No page of class `t` has a free block. */
  ghost predicate Exhausted(h: State, g: Shape, t: nat)
    requires Shaped(h, g)
  {
    forall i :: i in g.all && h.btype[i] == t ==> h.nfree[i] == 0
  }

  /** No page of the class for `sz` bytes has a free block. */
  ghost predicate NoBlock(h: State, g: Shape, sz: nat)
    requires Shaped(h, g)
  {
    exists t :: IsClass(sz, t) && Exhausted(h, g, t)
  }

  lemma NoBlockOf(h: State, g: Shape, sz: nat, t: nat)
    requires Shaped(h, g) && IsClass(sz, t)
    ensures NoBlock(h, g, sz) <==> Exhausted(h, g, t)
  {
    hide Shaped, Exhausted;
  }

  lemma ClassHolds(sz: nat, t: nat)
    requires IsClass(sz, t)
    ensures t < NSIZES && sz <= Size(t)
  {
  }

  ghost predicate NoRefLeft(inuse: seq<bool>) {
    forall i :: 0 <= i < |inuse| ==> inuse[i]
  }

  class Allocator {
    var nextSame: seq<int>
    var nextAll: seq<int>
    var page: seq<nat>
    var btype: seq<nat>
    var offset: seq<nat>
    var nfree: seq<nat>
    var inuse: seq<bool>
    var sizebases: seq<int>
    var allbase: int
    var mem: Mem
    ghost var g: Shape

    function H(): State
      reads this
    {
      State(nextSame, nextAll, page, btype, offset, nfree, inuse, sizebases, allbase, mem)
    }

    ghost predicate Valid()
      reads this
    {
      Inv(H(), g)
    }

    constructor ()
      ensures Valid() && g.live == map[]
    {
      nextSame, nextAll := seq(NPAGEREFS, i => NULL), seq(NPAGEREFS, i => NULL);
      page, btype := seq(NPAGEREFS, i => 0), seq(NPAGEREFS, i => 0);
      offset, nfree := seq(NPAGEREFS, i => 0), seq(NPAGEREFS, i => 0);
      inuse, sizebases, allbase := seq(NPAGEREFS, i => false), seq(NSIZES, i => NULL), NULL;
      mem := map[];
      g := Shape([], seq(NSIZES, i => []), seq(NPAGEREFS, i => []), map[]);
    }

    /** The owner of a live allocation may store anywhere in it. */
    method Store(p: int, a: int, v: int)
      requires Valid() && p in g.live && p <= a < p + Extent(H(), g.live[p])
      modifies this`mem
      ensures Valid() && mem == old(mem)[a := v]
    {
      ClientStoreKeeps(H(), g, NULL, p, a, v);
      mem := mem[a := v];
    }

    /** The first page reference not in use, searched word by word and bit by bit. */
    method AllocPageRef() returns (r: int)
      requires |inuse| == NPAGEREFS
      modifies this`inuse
      ensures r == NULL ==> inuse == old(inuse) && forall i :: 0 <= i < NPAGEREFS ==> inuse[i]
      ensures r != NULL ==> 0 <= r < NPAGEREFS && !old(inuse)[r] && inuse == old(inuse)[r := true]
      ensures r != NULL ==> forall i :: 0 <= i < r ==> inuse[i]
    {
      var w := 0;
      while w < NPAGEREFS / 32
        invariant 0 <= w <= NPAGEREFS / 32 && inuse == old(inuse)
        invariant forall i :: 0 <= i < w * 32 ==> inuse[i]
      {
        var j := 0;
        while j < 32
          invariant 0 <= j <= 32 && inuse == old(inuse)
          invariant forall i :: 0 <= i < w * 32 + j ==> inuse[i]
        {
          if !inuse[w * 32 + j] {
            r := w * 32 + j;
            inuse := inuse[r := true];
            return;
          }
          j := j + 1;
        }
        w := w + 1;
      }
      r := NULL;
    }

    /** Thread the free list of a new page through its blocks, each one pointing to the one before. */
    method ThreadPage(p: nat, t: nat) returns (last: int, ghost blocks: seq<int>)
      requires t < NSIZES
      modifies this`mem
      ensures FreshList(mem, p, t, blocks) && last == p + PAGE_SIZE - Size(t)
      ensures SameOutside(old(mem), mem, p, PAGE_SIZE)
    {
      hide Threaded, FreshList;
      var n, size := PerPage(t), Size(t);
      SizeDivides(t);
      ThreadFirst(mem, p, size);
      mem := mem[p := 0];
      blocks := [p];
      var i := 1;
      while i < n
        invariant 1 <= i <= n && Threaded(mem, p, size, i, blocks)
        invariant SameOutside(old(mem), mem, p, PAGE_SIZE)
      {
        Offsets(i, n, size);
        ThreadNext(mem, p, size, i, blocks);
        mem := mem[p + i * size := p + (i - 1) * size];
        blocks := [p + i * size] + blocks;
        i := i + 1;
      }
      last := p + (n - 1) * size;
      ThreadDone(mem, p, t, blocks);
    }

    /** Fill in page reference `r` and link it first in both lists. */
    method LinkPage(r: nat, t: nat, p: nat, last: int)
      requires r < |nextSame| == |nextAll| == |page| == |btype| == |offset| == |nfree| == |inuse|
      requires t < NSIZES == |sizebases| && last == p + PAGE_SIZE - Size(t)
      modifies this
      ensures H() == Added(old(H()), r, t, p, mem).(inuse := inuse) && g == old(g) && mem == old(mem)
      ensures inuse == old(inuse)
    {
      page := page[r := p];
      btype := btype[r := t];
      nfree := nfree[r := PerPage(t)];
      offset := offset[r := last - p];
      nextSame := nextSame[r := sizebases[t]];
      sizebases := sizebases[t := r];
      nextAll := nextAll[r := allbase];
      allbase := r;
    }

    /** A new page of blocks of type `t`, linked into both lists. `given` is what alloc_kpages returns. */
    method NewPage(t: nat, given: int) returns (r: int)
      requires Valid() && t < NSIZES && (given == 0 || FreshPages(H(), g, given, 1))
      modifies this
      ensures g.live == old(g.live)
      ensures SameOutside(old(mem), mem, given, PAGE_SIZE) && (given == 0 ==> mem == old(mem))
      ensures r == NULL ==> H() == old(H()) && g == old(g)
      ensures r == NULL <==> given == 0 || NoRefLeft(old(inuse))
      ensures r != NULL ==> r in g.all && InvBut(H(), g, r) && nfree[r] > 0 && btype[r] == t
    {
      r := AllocPageRef();
      if r == NULL {
        return;
      }
      if given == 0 {
        inuse := inuse[r := false];
        assert inuse == old(inuse);
        r := NULL;
        return;
      }
      var last;
      ghost var blocks;
      last, blocks := ThreadPage(given, t);
      LinkPage(r, t, given, last);
      AddKeeps(old(H()), g, r, t, given, mem, blocks);
      g := AddedShape(g, r, t, blocks);
      assert H() == Added(old(H()), r, t, given, mem);
    }

    /** Unhook the first free block of page reference `i`. */
    method PopBlock(i: nat) returns (p: int)
      requires i < |page| && i < |offset| && i < |nfree| && nfree[i] > 0
      modifies this`nfree, this`offset
      ensures p == page[i] + old(offset)[i] && H() == Take(old(H()), i)
    {
      p := page[i] + offset[i];
      var next := Load(mem, p);
      nfree := nfree[i := nfree[i] - 1];
      if next != 0 && next >= page[i] {
        offset := offset[i := next - page[i]];
      } else {
        offset := offset[i := INVALID_OFFSET];
      }
    }

    /** Hand out the first free block of page reference `i`. */
    method TakeBlock(i: nat, ghost x: int) returns (p: int)
      requires InvBut(H(), g, x) && (x == NULL || x == i) && i in g.all && nfree[i] > 0
      modifies this
      ensures Valid() && p > 0 && p !in old(g.live) && g.live == old(g.live)[p := Sub(i)]
      ensures page == old(page) && btype == old(btype) && mem == old(mem)
    {
      TakeKeeps(H(), g, x, i);
      p := PopBlock(i);
      assert p == g.free[i][0];
      g := TakeShape(g, i);
    }

    /** The search for a page of class `t` with a free block. */
    method FindFree(t: nat) returns (pr: int)
      requires Valid() && t < NSIZES
      ensures pr == NULL <==> Exhausted(H(), g, t)
      ensures pr != NULL ==> pr in g.all && nfree[pr] > 0 && btype[pr] == t
    {
      hide Pages, FreeList, Partition;
      pr := sizebases[t];
      ghost var k := 0;
      while pr != NULL
        invariant 0 <= k <= |g.byType[t]|
        invariant pr == if k < |g.byType[t]| then g.byType[t][k] else NULL
        invariant forall j :: 0 <= j < k ==> nfree[g.byType[t][j]] == 0
        decreases |g.byType[t]| - k
      {
        assert pr in g.byType[t];
        if nfree[pr] > 0 {
          return;
        }
        assert nextSame[g.byType[t][k]] == After<int>(g.byType[t], k, NULL);
        pr := nextSame[pr];
        k := k + 1;
      }
    }

    /** subpage_kmalloc: 0 exactly when no page of the class has a free block and no new page can be had. */
    method SubpageKmalloc(sz: nat, given: int) returns (p: int)
      requires Valid() && sz < LARGEST_SUBPAGE_SIZE && (given == 0 || FreshPages(H(), g, given, 1))
      modifies this
      ensures Valid() && SameOutside(old(mem), mem, given, PAGE_SIZE) && (given == 0 ==> mem == old(mem))
      ensures p == 0 ==> g == old(g) && H() == old(H())
      ensures p == 0 <==> old(NoBlock(H(), g, sz)) && (given == 0 || NoRefLeft(old(inuse)))
      ensures p != 0 ==> p !in old(g.live) && p in g.live && g.live == old(g.live)[p := g.live[p]]
                         && g.live[p].Sub? && sz <= Extent(H(), g.live[p])
    {
      hide Pages, FreeList, Partition, Lists, NoBlock, NoRefLeft, IsClass;
      var t := BlockTypeFor(sz);
      ClassHolds(sz, t);
      NoBlockOf(H(), g, sz, t);
      var pr := FindFree(t);
      if pr != NULL {
        p := TakeBlock(pr, NULL);
        return;
      }
      pr := NewPage(t, given);
      if pr == NULL {
        return 0;
      }
      p := TakeBlock(pr, pr);
    }

    /** remove_lists, first loop: follow the list of size `t` to the link that leads to `i` and skip `i`. */
    method UnlinkSame(i: nat, t: nat, ghost list: seq<nat>) returns (ghost m: nat)
      requires t < |sizebases| && Chain(nextSame, sizebases[t], list) && i in list
      modifies this`nextSame, this`sizebases
      ensures m < |list| && list[m] == i
      ensures m == 0 ==> nextSame == old(nextSame) && sizebases == old(sizebases)[t := nextSame[i]]
      ensures m > 0 ==> sizebases == old(sizebases) && nextSame == old(nextSame)[list[m - 1] := old(nextSame)[i]]
    {
      m := 0;
      var prev, guy := NULL, sizebases[t];
      while guy != i
        invariant m < |list| && guy == list[m] && prev == (if m == 0 then NULL else list[m - 1])
        invariant i !in list[..m]
        decreases |list| - m
      {
        assert list[..m + 1] == list[..m] + [list[m]];
        assert nextSame[list[m]] == After<int>(list, m, NULL);
        prev, guy := guy, nextSame[guy];
        m := m + 1;
      }
      if prev == NULL {
        sizebases := sizebases[t := nextSame[i]];
      } else {
        nextSame := nextSame[prev := nextSame[i]];
      }
    }

    /** remove_lists, second loop: the same on the list of all page references. */
    method UnlinkAll(i: nat, ghost list: seq<nat>) returns (ghost m: nat)
      requires Chain(nextAll, allbase, list) && i in list
      modifies this`nextAll, this`allbase
      ensures m < |list| && list[m] == i
      ensures m == 0 ==> nextAll == old(nextAll) && allbase == nextAll[i]
      ensures m > 0 ==> allbase == old(allbase) && nextAll == old(nextAll)[list[m - 1] := old(nextAll)[i]]
    {
      m := 0;
      var prev, guy := NULL, allbase;
      while guy != i
        invariant m < |list| && guy == list[m] && prev == (if m == 0 then NULL else list[m - 1])
        invariant i !in list[..m]
        decreases |list| - m
      {
        assert list[..m + 1] == list[..m] + [list[m]];
        assert nextAll[list[m]] == After<int>(list, m, NULL);
        prev, guy := guy, nextAll[guy];
        m := m + 1;
      }
      if prev == NULL {
        allbase := nextAll[i];
      } else {
        nextAll := nextAll[prev := nextAll[i]];
      }
    }

    /** remove_lists and freepageref. */
    method Unhook(i: nat, t: nat, ghost all: seq<nat>, ghost same: seq<nat>) returns (ghost k: nat, ghost m: nat)
      requires Chain(nextAll, allbase, all) && i in all && i < |inuse|
      requires t < |sizebases| && Chain(nextSame, sizebases[t], same) && i in same
      modifies this
      ensures g == old(g) && mem == old(mem) && Unhooked(old(H()), H(), i, t, all, same, k, m)
    {
      m := UnlinkSame(i, t, same);
      k := UnlinkAll(i, all);
      inuse := inuse[i := false];
    }

    /** Take a page whose blocks are all free off both lists and give its page reference back. */
    method ReleasePage(i: nat)
      requires InvBut(H(), g, i) && i in g.all && nfree[i] == PerPage(btype[i])
      modifies this
      ensures Valid() && g.live == old(g.live) && mem == old(mem)
    {
      var t := btype[i];
      assert i in g.byType[t];
      ghost var k, m := Unhook(i, t, g.all, g.byType[t]);
      ReleaseKeeps(old(H()), g, H(), i, t, k, m);
      g := DroppedShape(g, t, k, m);
    }

    /** Overwrite a live block word by word before it is freed. */
    method FillDeadbeef(p: int, len: nat)
      requires Valid() && p in g.live && len <= Extent(H(), g.live[p])
      modifies this`mem
      ensures Valid() && SameOutside(old(mem), mem, p, len)
      ensures forall i :: 0 <= i < len / 4 ==> Load(mem, p + 4 * i) == 0xdeadbeef
    {
      var i := 0;
      while i < len / 4
        invariant 0 <= i <= len / 4 && Valid() && SameOutside(old(mem), mem, p, len)
        invariant forall j :: 0 <= j < i ==> Load(mem, p + 4 * j) == 0xdeadbeef
      {
        Store(p, p + 4 * i, 0xdeadbeef);
        i := i + 1;
      }
    }

    /** The page reference whose page holds `p`, if `p` lies on one of our pages. */
    method FindPage(p: int) returns (pr: int)
      requires Valid()
      ensures pr == NULL ==> forall i :: i in g.all ==> !(page[i] <= p < page[i] + PAGE_SIZE)
      ensures pr != NULL ==> pr in g.all && page[pr] <= p < page[pr] + PAGE_SIZE
    {
      hide InvBut;
      AllChain(H(), g);
      pr := allbase;
      ghost var k := 0;
      while pr != NULL
        invariant 0 <= k <= |g.all| && pr == if k < |g.all| then g.all[k] else NULL
        invariant forall j :: 0 <= j < k ==> !(page[g.all[j]] <= p < page[g.all[j]] + PAGE_SIZE)
        decreases |g.all| - k
      {
        assert pr in g.all;
        if page[pr] <= p < page[pr] + PAGE_SIZE {
          return;
        }
        assert nextAll[g.all[k]] == After<int>(g.all, k, NULL);
        pr := nextAll[pr];
        k := k + 1;
      }
    }

    /** Put block `p` of page reference `i` at the head of its free list. */
    method PushBlock(i: nat, p: int)
      requires i < |page| && i < |offset| && i < |nfree| && p >= page[i]
      modifies this`mem, this`offset, this`nfree
      ensures H() == Give(old(H()), i, p)
    {
      if offset[i] == INVALID_OFFSET {
        mem := mem[p := 0];
      } else {
        mem := mem[p := page[i] + offset[i]];
      }
      offset := offset[i := p - page[i]];
      nfree := nfree[i := nfree[i] + 1];
    }

    /** Free a block of page reference `i`; its page may now be wholly free. */
    method PutBack(i: nat, p: int)
      requires Valid() && i in g.all && p in g.live && g.live[p] == Sub(i)
      modifies this
      ensures InvBut(H(), g, i) && i in g.all && g.live == old(g.live) - {p}
      ensures SameOutside(old(mem), mem, p, old(Size(btype[i])))
    {
      FillDeadbeef(p, Size(btype[i]));
      GiveKeeps(H(), g, i, p);
      PushBlock(i, p);
      g := GiveShape(g, i, p);
    }

    /** Free a block of page reference `i`, and the page with it when that was its last live block. */
    method GiveBlock(i: nat, p: int)
      requires Valid() && i in g.all && p in g.live && g.live[p] == Sub(i)
      modifies this
      ensures Valid() && g.live == old(g.live) - {p}
      ensures SameOutside(old(mem), mem, p, old(Size(btype[i])))
    {
      PutBack(i, p);
      if nfree[i] == PerPage(btype[i]) {
        ReleasePage(i);
      } else {
        StillUsed(H(), g, i);
      }
    }

    /** subpage_kfree: -1 when `p` is not on one of our pages. */
    method SubpageKfree(p: int) returns (r: int)
      requires Valid() && p in g.live
      modifies this
      ensures Valid() && SameOutside(old(mem), mem, p, old(Extent(H(), g.live[p])))
      ensures old(g.live[p]).Sub? ==> r == 0 && g.live == old(g.live) - {p}
      ensures old(g.live[p]).Big? ==> r == -1 && H() == old(H()) && g == old(g)
    {
      hide InvBut;
      AllChain(H(), g);
      var pr := FindPage(p);
      if pr == NULL {
        SubIsOnPage(H(), g, p);
        return -1;
      }
      BlockOnPage(H(), g, pr, p);
      // The positioning and alignment that the source checks before it goes on.
      assert p - page[pr] < PAGE_SIZE && (p - page[pr]) % Size(btype[pr]) == 0;
      GiveBlock(pr, p);
      return 0;
    }

    /** kmalloc. `given` is what alloc_kpages returns if it is called. A size that wraps when it is rounded up to pages
        gets a pointer with no memory behind it. */
    method Kmalloc(sz: Word, given: int) returns (p: int)
      requires Valid() && (given == 0 || FreshPages(H(), g, given, PagesFor(sz)))
      modifies this
      ensures Valid() && forall q :: q in old(g.live) ==> SameInside(old(mem), mem, q, old(Extent(H(), g.live[q])))
      ensures p == 0 ==> g == old(g) && H() == old(H())
      ensures p == 0 <==>
              if sz >= LARGEST_SUBPAGE_SIZE then given == 0
              else old(NoBlock(H(), g, sz)) && (given == 0 || NoRefLeft(old(inuse)))
      ensures p != 0 && Rounds(sz) ==> p !in old(g.live) && p in g.live && g.live == old(g.live)[p := g.live[p]]
                                       && sz <= Extent(H(), g.live[p])
      ensures !Rounds(sz) ==> p == given && g == old(g) && H() == old(H())
    {
      if sz >= LARGEST_SUBPAGE_SIZE {
        var npages := (sz + PAGE_SIZE - 1) % U32 / PAGE_SIZE;
        if given == 0 {
          return 0;
        }
        PagesCover(sz);
        if npages > 0 {
          BigAllocKeeps(H(), g, given, npages);
          g := g.(live := g.live[given := Big(npages)]);
        }
        return given;
      }
      p := SubpageKmalloc(sz, given);
      OwnersKeepData(old(H()), old(g), mem, given);
    }

    /** kfree of NULL or of a live allocation: the pointer goes back the way it came. */
    method Kfree(p: int)
      requires Valid() && (p == 0 || p in g.live)
      modifies this
      ensures Valid() && g.live == old(g.live) - {p}
      ensures forall q :: q in g.live ==> SameInside(old(mem), mem, q, old(Extent(H(), g.live[q])))
    {
      if p == 0 {
        NullNotLive(H(), g);
        return;
      }
      var r := SubpageKfree(p);
      OthersKeepData(old(H()), old(g), mem, p);
      if r != 0 {
        assert p % PAGE_SIZE == 0;
        BigFreeKeeps(H(), g, p);
        g := g.(live := g.live - {p});
      }
    }
  }

  /** How many pages kmalloc asks alloc_kpages for, in 32-bit arithmetic. */
  function PagesFor(sz: Word): nat {
    if sz >= LARGEST_SUBPAGE_SIZE then (sz + PAGE_SIZE - 1) % U32 / PAGE_SIZE else 1
  }

  /** The size can be rounded up to whole pages without wrapping around. */
  predicate Rounds(sz: Word) {
    sz + PAGE_SIZE - 1 < U32
  }

  /** The pages asked for hold the size exactly when rounding does not wrap; otherwise none is asked for. */
  lemma PagesCover(sz: Word)
    requires sz >= LARGEST_SUBPAGE_SIZE
    ensures sz <= PagesFor(sz) * PAGE_SIZE <==> Rounds(sz)
    ensures PagesFor(sz) == 0 <==> !Rounds(sz)
  {
  }

  /** For instance the smallest size that wraps. */
  lemma WrapsToNothing()
    ensures !Rounds(0xffff_f001) && PagesFor(0xffff_f001) == 0
  {
  }

  /** ram_stealmem: the address handed out, 0 if there is not enough, and where free memory begins afterwards. */
  function Stolen(first: Word, last: Word, npages: Word): (Word, Word) {
    var end := (first + npages * PAGE_SIZE % U32) % U32;
    if end > last then (0, first) else (first, end)
  }

  /** Asking for no pages yields an address all the same, and the next page handed out is at that address. */
  lemma NoPagesNoMemory(first: Word, last: Word)
    requires 0 < first && first + PAGE_SIZE <= last
    ensures Stolen(first, last, 0) == (first, first) && first != 0
    ensures Stolen(Stolen(first, last, 0).1, last, 1).0 == Stolen(first, last, 0).0
  {
  }

  /** A page that is not wholly free needs no exception. */
  lemma StillUsed(h: State, g: Shape, i: nat)
    requires InvBut(h, g, i) && i in g.all && h.nfree[i] != PerPage(h.btype[i])
    ensures Inv(h, g)
  {
    FreePlusLive(h, g, i, i);
  }

  /** A live pointer into a subdivided page is one of its blocks, properly aligned. */
  lemma BlockOnPage(h: State, g: Shape, i: nat, p: int)
    requires Inv(h, g) && p in g.live && i in g.all && h.page[i] <= p < h.page[i] + PAGE_SIZE
    ensures g.live[p] == Sub(i) && (p - h.page[i]) % Size(h.btype[i]) == 0
  {
    LiveInPage(h, g, NULL, i, p);
    BlockFits(h.page[i], h.btype[i], p);
  }

  lemma SubIsOnPage(h: State, g: Shape, p: int)
    requires Inv(h, g) && p in g.live
    ensures g.live[p].Sub? ==> exists i :: i in g.all && h.page[i] <= p < h.page[i] + PAGE_SIZE
  {
    if g.live[p].Sub? {
      BlockFits(h.page[g.live[p].pr], h.btype[g.live[p].pr], p);
    }
  }

  lemma NullNotLive(h: State, g: Shape)
    requires Inv(h, g)
    ensures 0 !in g.live
  {
    if 0 in g.live && g.live[0].Sub? {
      BlockFits(h.page[g.live[0].pr], h.btype[g.live[0].pr], 0);
    }
  }

  /** `h'` is `h` after page reference `i`, number `k` and `m` of its two lists, was unlinked. */
  ghost predicate Unhooked(h: State, h': State, i: nat, t: nat, all: seq<nat>, same: seq<nat>, k: nat, m: nat)
    requires i < |h.inuse|
  {
    && h' == Dropped(h, i, h'.nextSame, h'.sizebases, h'.nextAll, h'.allbase)
    && k < |all| && all[k] == i && m < |same| && same[m] == i
    && i < |h.nextSame| && i < |h.nextAll| && t < |h.sizebases|
    && (m == 0 ==> h'.nextSame == h.nextSame && h'.sizebases == h.sizebases[t := h.nextSame[i]])
    && (m > 0 ==> h'.sizebases == h.sizebases && same[m - 1] < |h.nextSame|
                  && h'.nextSame == h.nextSame[same[m - 1] := h.nextSame[i]])
    && (k == 0 ==> h'.nextAll == h.nextAll && h'.allbase == h.nextAll[i])
    && (k > 0 ==> h'.allbase == h.allbase && all[k - 1] < |h.nextAll|
                  && h'.nextAll == h.nextAll[all[k - 1] := h.nextAll[i]])
  }

  lemma ReleaseKeeps(h: State, g: Shape, h': State, i: nat, t: nat, k: nat, m: nat)
    requires InvBut(h, g, i) && i in g.all && h.btype[i] == t && h.nfree[i] == PerPage(t)
    requires Unhooked(h, h', i, t, g.all, g.byType[t], k, m)
    ensures Inv(h', DroppedShape(g, t, k, m))
  {
    SameChains(h, g, i, t, m, h'.nextSame, h'.sizebases);
    if k == 0 {
      UnlinkFirst(h.nextAll, h.allbase, g.all);
    } else {
      UnlinkLater(h.nextAll, h.allbase, g.all, k);
    }
    DropKeeps(h, g, h', t, k, m);
  }

  /** The lists by size after `i` has been unlinked from the list of its own size. */
  lemma SameChains(h: State, g: Shape, i: nat, t: nat, m: nat, next: seq<int>, bases: seq<int>)
    requires InvBut(h, g, i) && t < NSIZES && m < |g.byType[t]| && g.byType[t][m] == i
    requires m == 0 ==> next == h.nextSame && bases == h.sizebases[t := h.nextSame[i]]
    requires m > 0 ==> bases == h.sizebases && next == h.nextSame[g.byType[t][m - 1] := h.nextSame[i]]
    ensures |next| == NPAGEREFS && |bases| == NSIZES
    ensures forall s :: 0 <= s < NSIZES ==>
                          Chain(next, bases[s], if s == t then RemoveAt(g.byType[t], m) else g.byType[s])
  {
    forall s | 0 <= s < NSIZES
      ensures Chain(next, bases[s], if s == t then RemoveAt(g.byType[t], m) else g.byType[s])
    {
      var list := g.byType[t];
      if s == t {
        if m == 0 {
          UnlinkFirst(h.nextSame, h.sizebases[t], list);
        } else {
          UnlinkLater(h.nextSame, h.sizebases[t], list, m);
        }
      } else if m > 0 {
        var j: nat := list[m - 1];
        assert j in g.byType[t] && h.btype[j] == t;
        assert j in g.byType[s] <==> j in g.all && h.btype[j] == s;
        LinkElsewhere(h.nextSame, h.sizebases[s], g.byType[s], list[m - 1], h.nextSame[i]);
      }
    }
  }

  /** The first `i` blocks of a page are on its free list, the last of them first. */
  ghost predicate Threaded(mem: Mem, p: int, size: nat, i: nat, blocks: seq<int>) {
    && 0 < i == |blocks| && Distinct(blocks) && FreeChain(mem, blocks) && blocks[0] == p + (i - 1) * size
    && forall a :: a in blocks <==> a in Blocks(p, size, i)
  }

  lemma ThreadFirst(mem: Mem, p: int, size: nat)
    ensures Threaded(mem[p := 0], p, size, 1, [p])
  {
    BlocksSnoc(p, size, 0);
  }

  lemma ThreadNext(mem: Mem, p: int, size: nat, i: nat, blocks: seq<int>)
    requires Threaded(mem, p, size, i, blocks) && size > 0
    ensures Threaded(mem[p + i * size := p + (i - 1) * size], p, size, i + 1, [p + i * size] + blocks)
  {
    BlocksSnoc(p, size, i);
    BlocksSpread(p, size, i, p + i * size);
    ChainPush(mem, blocks, p + i * size);
  }

  lemma ThreadDone(mem: Mem, p: nat, t: nat, blocks: seq<int>)
    requires t < NSIZES && Threaded(mem, p, Size(t), PerPage(t), blocks)
    ensures FreshList(mem, p, t, blocks) && p + (PerPage(t) - 1) * Size(t) == p + PAGE_SIZE - Size(t)
  {
    SizeDivides(t);
    assert PerPage(t) * Size(t) == (PerPage(t) - 1) * Size(t) + Size(t);
  }

  lemma Offsets(i: nat, n: nat, size: nat)
    requires i < n && n * size == PAGE_SIZE && size > 0
    ensures 0 <= i * size < PAGE_SIZE
  {
    assert (n - i) * size >= size;
    assert i * size == n * size - (n - i) * size;
  }
}
