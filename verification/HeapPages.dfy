/** Adding a page to the heap's lists and taking one off. */
module HeapPages {
  import opened Heap
  import opened HeapLemmas

  // ---------------------------------------------------------------- linked lists

  function RemoveAt<T>(list: seq<T>, k: nat): seq<T>
    requires k < |list|
  {
    list[..k] + list[k + 1..]
  }

  lemma RemoveAtMembers(list: seq<nat>, k: nat)
    requires Distinct(list) && k < |list|
    ensures Distinct(RemoveAt(list, k))
    ensures forall x :: x in RemoveAt(list, k) <==> x in list && x != list[k]
  {
    var r := RemoveAt(list, k);
    forall x | x in list && x != list[k]
      ensures x in r
    {
      var j :| 0 <= j < |list| && list[j] == x;
      assert r[if j < k then j else j - 1] == x;
    }
  }

  lemma LinkFirst(next: seq<int>, base: int, list: seq<nat>, i: nat)
    requires Chain(next, base, list) && Distinct(list) && i < |next| && i !in list
    ensures Chain(next[i := base], i, [i] + list) && Distinct([i] + list)
  {
    var next', list' := next[i := base], [i] + list;
    forall k | 0 <= k < |list'|
      ensures next'[list'[k]] == After<int>(list', k, NULL)
    {
      if k > 0 {
        assert list'[k] == list[k - 1];
        assert next[list[k - 1]] == After<int>(list, k - 1, NULL);
      }
    }
  }

  /** Changing the link of an element that is not on the list. */
  lemma LinkElsewhere(next: seq<int>, base: int, list: seq<nat>, i: nat, v: int)
    requires Chain(next, base, list) && i < |next| && i !in list
    ensures Chain(next[i := v], base, list)
  {
    forall k | 0 <= k < |list|
      ensures next[i := v][list[k]] == After<int>(list, k, NULL)
    {
      assert next[list[k]] == After<int>(list, k, NULL);
    }
  }

  lemma UnlinkFirst(next: seq<int>, base: int, list: seq<nat>)
    requires Chain(next, base, list) && list != []
    ensures Chain(next, next[list[0]], RemoveAt(list, 0))
  {
    var r := RemoveAt(list, 0);
    assert next[list[0]] == After<int>(list, 0, NULL);
    forall k | 0 <= k < |r|
      ensures next[r[k]] == After<int>(r, k, NULL)
    {
      assert r[k] == list[k + 1];
      assert next[list[k + 1]] == After<int>(list, k + 1, NULL);
    }
  }

  lemma UnlinkLater(next: seq<int>, base: int, list: seq<nat>, k: nat)
    requires Chain(next, base, list) && Distinct(list) && 0 < k < |list|
    ensures Chain(next[list[k - 1] := next[list[k]]], base, RemoveAt(list, k))
  {
    var r, next' := RemoveAt(list, k), next[list[k - 1] := next[list[k]]];
    forall j | 0 <= j < |r|
      ensures next'[r[j]] == After<int>(r, j, NULL)
    {
      var m := if j < k then j else j + 1;
      assert r[j] == list[m];
      assert next[list[m]] == After<int>(list, m, NULL);
      assert next[list[k]] == After<int>(list, k, NULL);
    }
    assert r[0] == list[0];
  }

  // ---------------------------------------------------------------- adding a page

  /** alloc_kpages: `n` pages from `a` on that overlap nothing in use. */
  ghost predicate FreshPages(h: State, g: Shape, a: int, n: nat)
    requires Shaped(h, g)
  {
    && a > 0 && a % PAGE_SIZE == 0
    && (forall i :: i in g.all ==> Apart(a, n * PAGE_SIZE, h.page[i], PAGE_SIZE))
    && (forall p :: p in g.live && g.live[p].Big? ==> Apart(a, n * PAGE_SIZE, p, g.live[p].pages * PAGE_SIZE))
  }

  function Added(h: State, i: nat, t: nat, page: nat, mem: Mem): State
    requires i < |h.nextSame| == |h.nextAll| == |h.page| == |h.btype| == |h.offset| == |h.nfree| == |h.inuse|
    requires t < NSIZES == |h.sizebases|
  {
    State(h.nextSame[i := h.sizebases[t]], h.nextAll[i := h.allbase], h.page[i := page], h.btype[i := t],
          h.offset[i := PAGE_SIZE - Size(t)], h.nfree[i := PerPage(t)], h.inuse[i := true],
          h.sizebases[t := i], i, mem)
  }

  ghost function AddedShape(g: Shape, i: nat, t: nat, blocks: seq<int>): Shape
    requires i < |g.free| && t < |g.byType|
  {
    Shape([i] + g.all, g.byType[t := [i] + g.byType[t]], g.free[i := blocks], g.live)
  }

  /** The free list of a new page: every block once, the last one first. */
  ghost predicate FreshList(mem: Mem, page: nat, t: nat, blocks: seq<int>)
    requires t < NSIZES
  {
    && |blocks| == PerPage(t) && Distinct(blocks) && FreeChain(mem, blocks)
    && (forall a :: a in blocks <==> IsBlock(page, t, a))
    && blocks[0] == page + PAGE_SIZE - Size(t)
  }

  lemma AddLists(h: State, g: Shape, i: nat, t: nat, page: nat, mem: Mem, blocks: seq<int>)
    requires Inv(h, g) && i < NPAGEREFS && t < NSIZES && !h.inuse[i]
    ensures Shaped(Added(h, i, t, page, mem), AddedShape(g, i, t, blocks))
    ensures Lists(Added(h, i, t, page, mem), AddedShape(g, i, t, blocks))
  {
    LinkFirst(h.nextAll, h.allbase, g.all, i);
    LinkFirst(h.nextSame, h.sizebases[t], g.byType[t], i);
    forall s | 0 <= s < NSIZES && s != t
      ensures Chain(h.nextSame[i := h.sizebases[t]], h.sizebases[s], g.byType[s])
    {
      LinkElsewhere(h.nextSame, h.sizebases[s], g.byType[s], i, h.sizebases[t]);
    }
  }

  lemma AddPages(h: State, g: Shape, i: nat, t: nat, page: nat, mem: Mem, blocks: seq<int>)
    requires Inv(h, g) && i < NPAGEREFS && t < NSIZES && !h.inuse[i] && FreshPages(h, g, page, 1)
    ensures Shaped(Added(h, i, t, page, mem), AddedShape(g, i, t, blocks))
    ensures Pages(Added(h, i, t, page, mem), AddedShape(g, i, t, blocks))
  {
    assert i !in g.all;
    hide Lists, FreeList, Partition, IsBlock, Chain;
  }

  lemma AddOther(h: State, g: Shape, i: nat, t: nat, page: nat, mem: Mem, blocks: seq<int>, j: nat)
    requires Shaped(h, g) && j in g.all && FreeList(h, g, j) && Partition(h, g, j)
    requires i < NPAGEREFS && t < NSIZES && i != j && Apart(page, PAGE_SIZE, h.page[j], PAGE_SIZE)
    requires forall a :: !(page <= a < page + PAGE_SIZE) ==> Load(mem, a) == Load(h.mem, a)
    ensures Shaped(Added(h, i, t, page, mem), AddedShape(g, i, t, blocks))
    ensures FreeList(Added(h, i, t, page, mem), AddedShape(g, i, t, blocks), j)
    ensures Partition(Added(h, i, t, page, mem), AddedShape(g, i, t, blocks), j)
  {
    forall k | 0 <= k < |g.free[j]|
      ensures Load(mem, g.free[j][k]) == After(g.free[j], k, 0)
    {
      assert g.free[j][k] in g.free[j];
      BlockFits(h.page[j], h.btype[j], g.free[j][k]);
      assert Load(h.mem, g.free[j][k]) == After(g.free[j], k, 0);
    }
  }

  /** A fresh page joins both lists with all its blocks free. */
  lemma AddKeeps(h: State, g: Shape, i: nat, t: nat, page: nat, mem: Mem, blocks: seq<int>)
    requires Inv(h, g) && i < NPAGEREFS && t < NSIZES && !h.inuse[i] && FreshPages(h, g, page, 1)
    requires FreshList(mem, page, t, blocks)
    requires forall a :: !(page <= a < page + PAGE_SIZE) ==> Load(mem, a) == Load(h.mem, a)
    ensures InvBut(Added(h, i, t, page, mem), AddedShape(g, i, t, blocks), i)
  {
    var h', g' := Added(h, i, t, page, mem), AddedShape(g, i, t, blocks);
    AddLists(h, g, i, t, page, mem, blocks);
    AddPages(h, g, i, t, page, mem, blocks);
    forall j | j in g.all
      ensures FreeList(h', g', j) && Partition(h', g', j)
    {
      assert FreeList(h, g, j) && Partition(h, g, j);
      AddOther(h, g, i, t, page, mem, blocks, j);
    }
    forall a | IsBlock(page, t, a)
      ensures a !in g.live
    {
      BlockFits(page, t, a);
      FreshUnused(h, g, page, a);
    }
  }

  /** Nothing live starts inside fresh pages. */
  lemma FreshUnused(h: State, g: Shape, page: nat, a: int)
    requires Inv(h, g) && FreshPages(h, g, page, 1) && page <= a < page + PAGE_SIZE
    ensures a !in g.live
  {
    if a in g.live && g.live[a].Sub? {
      BlockFits(h.page[g.live[a].pr], h.btype[g.live[a].pr], a);
    }
  }

  // ---------------------------------------------------------------- dropping a page

  function Dropped(h: State, i: nat, nextSame: seq<int>, sizebases: seq<int>, nextAll: seq<int>, allbase: int): State
    requires i < |h.inuse|
  {
    h.(nextSame := nextSame, sizebases := sizebases, nextAll := nextAll, allbase := allbase,
       inuse := h.inuse[i := false])
  }

  ghost function DroppedShape(g: Shape, t: nat, k: nat, m: nat): Shape
    requires k < |g.all| && t < |g.byType| && m < |g.byType[t]|
  {
    g.(all := RemoveAt(g.all, k), byType := g.byType[t := RemoveAt(g.byType[t], m)])
  }

  lemma DropLists(h: State, g: Shape, h': State, t: nat, k: nat, m: nat)
    requires InvBut(h, g, if k < |g.all| then g.all[k] else NULL) && t < NSIZES
    requires k < |g.all| && m < |g.byType[t]| && g.byType[t][m] == g.all[k]
    requires h' == Dropped(h, g.all[k], h'.nextSame, h'.sizebases, h'.nextAll, h'.allbase)
    requires |h'.nextSame| == |h'.nextAll| == NPAGEREFS && |h'.sizebases| == NSIZES
    requires Chain(h'.nextAll, h'.allbase, RemoveAt(g.all, k))
    requires forall s :: 0 <= s < NSIZES ==>
                           Chain(h'.nextSame, h'.sizebases[s], if s == t then RemoveAt(g.byType[t], m) else g.byType[s])
    ensures Shaped(h', DroppedShape(g, t, k, m)) && Lists(h', DroppedShape(g, t, k, m))
  {
    RemoveAtMembers(g.all, k);
    RemoveAtMembers(g.byType[t], m);
  }

  /** A page whose blocks are all free leaves both lists; nothing live was on it. */
  lemma DropKeeps(h: State, g: Shape, h': State, t: nat, k: nat, m: nat)
    requires InvBut(h, g, if k < |g.all| then g.all[k] else NULL) && t < NSIZES
    requires k < |g.all| && m < |g.byType[t]| && g.byType[t][m] == g.all[k]
    requires h' == Dropped(h, g.all[k], h'.nextSame, h'.sizebases, h'.nextAll, h'.allbase)
    requires |h'.nextSame| == |h'.nextAll| == NPAGEREFS && |h'.sizebases| == NSIZES
    requires Chain(h'.nextAll, h'.allbase, RemoveAt(g.all, k))
    requires forall s :: 0 <= s < NSIZES ==>
                           Chain(h'.nextSame, h'.sizebases[s], if s == t then RemoveAt(g.byType[t], m) else g.byType[s])
    requires h.nfree[g.all[k]] == PerPage(t)
    ensures Inv(h', DroppedShape(g, t, k, m))
  {
    var i, g' := g.all[k], DroppedShape(g, t, k, m);
    assert i in g.all && i in g.byType[t];
    DropLists(h, g, h', t, k, m);
    RemoveAtMembers(g.all, k);
    FreePlusLive(h, g, i, i);
    assert LiveIn(g, i) == {};
    forall p | p in g.live
      ensures g.live[p] != Sub(i)
    {
      assert p !in LiveIn(g, i);
    }
    forall j | j in g'.all
      ensures FreeList(h', g', j) && Partition(h', g', j)
    {
      assert FreeList(h, g, j) && Partition(h, g, j);
    }
  }
}
