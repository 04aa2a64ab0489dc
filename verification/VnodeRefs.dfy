/** The life of vnodes under interleaving threads: os161/kern/fs/vfs/vnode.c with sfs_loadvnode and sfs_reclaim
    of os161/kern/fs/sfs/sfs_vnode.c. Each section under vn_countlock is one step, and so are sfs_loadvnode and
    sfs_reclaim; between deciding to reclaim a vnode and reclaiming it other threads can run. */
module VnodeRefs {

  datatype Vn = Vn(ino: nat, count: nat)

  /** `table` is the array of loaded vnodes and `vn` their fields. `held` are the references threads have, and
      `pending` the vnodes some thread has decided to reclaim. */
  datatype Pool = Pool(table: seq<nat>, vn: map<nat, Vn>, held: Bag, pending: Bag)

  /** How many of each, none where there is no entry. */
  type Bag = map<nat, nat>

  function In(b: Bag, x: nat): nat {
    if x in b then b[x] else 0
  }

  function More(b: Bag, x: nat): (r: Bag)
    ensures forall y: nat :: In(r, y) == In(b, y) + if y == x then 1 else 0
  {
    b[x := In(b, x) + 1]
  }

  function Less(b: Bag, x: nat): (r: Bag)
    requires In(b, x) > 0
    ensures forall y: nat :: In(r, y) == In(b, y) - if y == x then 1 else 0
  {
    b[x := In(b, x) - 1]
  }

  datatype Event =
    | Incref(x: nat)
    | Decref(x: nat)
    | Reclaim(x: nat)
    | Load(ino: nat, id: nat)     // `id` is where a new vnode would be

  /** The first place from `i` on where `x` is in the table; its length if there is none. */
  function IndexOf(table: seq<nat>, x: nat, i: nat): (k: nat)
    requires i <= |table|
    ensures i <= k <= |table| && (k < |table| ==> table[k] == x) && forall j :: i <= j < k ==> table[j] != x
    decreases |table| - i
  {
    if i == |table| || table[i] == x then i else IndexOf(table, x, i + 1)
  }

  /** The first place from `i` on of a vnode of inode `ino`; the length of the table if there is none. */
  function Lookup(table: seq<nat>, vn: map<nat, Vn>, ino: nat, i: nat): (k: nat)
    requires i <= |table| && forall j :: 0 <= j < |table| ==> table[j] in vn
    ensures i <= k <= |table| && (k < |table| ==> vn[table[k]].ino == ino)
    ensures forall j :: i <= j < k ==> vn[table[j]].ino != ino
    decreases |table| - i
  {
    if i == |table| || vn[table[i]].ino == ino then i else Lookup(table, vn, ino, i + 1)
  }

  /** The count of `x` changed by `d`. */
  function Counted(vn: map<nat, Vn>, x: nat, d: int): map<nat, Vn>
    requires x in vn && vn[x].count + d >= 0
  {
    vn[x := vn[x].(count := vn[x].count + d)]
  }

  /** A thread uses a reference it has; a new vnode gets storage no loaded vnode has. */
  ghost predicate Enabled(s: Pool, e: Event) {
    match e
    case Incref(x) => In(s.held, x) > 0
    case Decref(x) => In(s.held, x) > 0
    case Reclaim(x) => In(s.pending, x) > 0
    case Load(_, id) => id !in s.vn
  }

  ghost predicate Listed(table: seq<nat>, x: nat) {
    x in table
  }

  /** The table lists exactly `keys`, each once. */
  ghost predicate Lists(table: seq<nat>, keys: set<nat>) {
    && (forall i :: 0 <= i < |table| ==> table[i] in keys)
    && (forall x :: x in keys ==> Listed(table, x))
    && (forall i, j :: 0 <= i < j < |table| ==> table[i] != table[j])
  }

  /** The table lists the loaded vnodes, and no two are of the same inode. */
  ghost predicate Tabled(s: Pool) {
    Lists(s.table, s.vn.Keys) && OneEach(s.vn)
  }

  ghost predicate OneEach(vn: map<nat, Vn>) {
    forall x, y :: x in vn && y in vn && x != y ==> vn[x].ino != vn[y].ino
  }

  lemma CountedKeeps(vn: map<nat, Vn>, x: nat, d: int)
    requires OneEach(vn) && x in vn && vn[x].count + d >= 0
    ensures OneEach(Counted(vn, x, d)) && Counted(vn, x, d).Keys == vn.Keys
  {
  }

  /** The count of a loaded vnode is its references, a pending reclaimer being one, and there is at most one of
      those. What is referenced is loaded. */
  ghost predicate CountsRefs(s: Pool) {
    && (forall x :: x in s.vn ==> 1 <= s.vn[x].count == In(s.held, x) + In(s.pending, x) && In(s.pending, x) <= 1)
    && (forall x: nat :: In(s.held, x) > 0 || In(s.pending, x) > 0 ==> x in s.vn)
  }

  ghost predicate Inv(s: Pool) {
    Tabled(s) && CountsRefs(s)
  }

  ghost function Dropped(s: Pool, x: nat): Pool
    requires Inv(s) && In(s.held, x) > 0
  {
    if s.vn[x].count > 1 then s.(vn := Counted(s.vn, x, -1), held := Less(s.held, x))
    else s.(held := Less(s.held, x), pending := More(s.pending, x))
  }

  ghost function Reclaimed(s: Pool, x: nat): Pool
    requires Inv(s) && In(s.pending, x) > 0
  {
    if s.vn[x].count != 1 then s.(vn := Counted(s.vn, x, -1), pending := Less(s.pending, x))
    else
      var k := IndexOf(s.table, x, 0);
      Found(s.table, s.vn.Keys, x);
      Pool(s.table[..k] + s.table[k + 1..], s.vn - {x}, s.held, Less(s.pending, x))
  }

  ghost function Loaded(s: Pool, ino: nat, id: nat): Pool
    requires Inv(s) && id !in s.vn
  {
    var k := Lookup(s.table, s.vn, ino, 0);
    if k < |s.table| then s.(vn := Counted(s.vn, s.table[k], 1), held := More(s.held, s.table[k]))
    else Pool(s.table + [id], s.vn[id := Vn(ino, 1)], More(s.held, id), s.pending)
  }

  ghost function Next(s: Pool, e: Event): Pool
    requires Inv(s) && Enabled(s, e)
  {
    match e
    case Incref(x) => s.(vn := Counted(s.vn, x, 1), held := More(s.held, x))
    case Decref(x) => Dropped(s, x)
    case Reclaim(x) => Reclaimed(s, x)
    case Load(ino, id) => Loaded(s, ino, id)
  }

  lemma RemoveAt(table: seq<nat>, keys: set<nat>, k: nat)
    requires Lists(table, keys) && k < |table|
    ensures Lists(table[..k] + table[k + 1..], keys - {table[k]})
  {
    var t := table[..k] + table[k + 1..];
    forall i | 0 <= i < |t|
      ensures t[i] == table[if i < k then i else i + 1]
    {
    }
    forall x | x in keys && x != table[k]
      ensures Listed(t, x)
    {
      assert Listed(table, x);
      var j :| 0 <= j < |table| && table[j] == x;
      assert t[if j < k then j else j - 1] == x;
    }
  }

  lemma AddLast(table: seq<nat>, keys: set<nat>, id: nat)
    requires Lists(table, keys) && id !in keys
    ensures Lists(table + [id], keys + {id})
  {
    forall x | x in keys
      ensures Listed(table + [id], x)
    {
      assert Listed(table, x);
    }
  }

  lemma Found(table: seq<nat>, keys: set<nat>, x: nat)
    requires Lists(table, keys) && x in keys
    ensures IndexOf(table, x, 0) < |table|
  {
    assert Listed(table, x);
  }

  lemma Searchable(table: seq<nat>, keys: set<nat>)
    requires Lists(table, keys)
    ensures forall i :: 0 <= i < |table| ==> table[i] in keys
  {
  }

  /** A vnode is killed only when no thread has a reference and nobody else is about to reclaim it. */
  lemma KilledAlone(s: Pool, x: nat)
    requires Inv(s) && In(s.pending, x) > 0 && s.vn[x].count == 1
    ensures In(s.held, x) == 0 && In(s.pending, x) == 1
    ensures x !in Reclaimed(s, x).vn && In(Reclaimed(s, x).pending, x) == 0
  {
  }

  lemma ReclaimKeeps(s: Pool, x: nat)
    requires Inv(s) && In(s.pending, x) > 0
    ensures Inv(Reclaimed(s, x))
  {
    hide Lists;
    var s' := Reclaimed(s, x);
    if s.vn[x].count != 1 {
      CountedKeeps(s.vn, x, -1);
    } else {
      Found(s.table, s.vn.Keys, x);
      RemoveAt(s.table, s.vn.Keys, IndexOf(s.table, x, 0));
      assert s'.vn.Keys == s.vn.Keys - {x};
    }
  }

  lemma NotLoaded(s: Pool, ino: nat, id: nat)
    requires Tabled(s) && forall j :: 0 <= j < |s.table| ==> s.vn[s.table[j]].ino != ino
    ensures OneEach(s.vn[id := Vn(ino, 1)])
  {
    forall x | x in s.vn
      ensures s.vn[x].ino != ino
    {
      assert Listed(s.table, x);
    }
  }

  lemma LoadKeeps(s: Pool, ino: nat, id: nat)
    requires Inv(s) && id !in s.vn
    ensures Inv(Loaded(s, ino, id))
  {
    hide Lists, OneEach;
    var s' := Loaded(s, ino, id);
    Searchable(s.table, s.vn.Keys);
    var k := Lookup(s.table, s.vn, ino, 0);
    if k < |s.table| {
      CountedKeeps(s.vn, s.table[k], 1);
    } else {
      AddLast(s.table, s.vn.Keys, id);
      NotLoaded(s, ino, id);
      assert s'.vn.Keys == s.vn.Keys + {id};
    }
  }

  lemma StepKeeps(s: Pool, e: Event)
    requires Inv(s) && Enabled(s, e)
    ensures Inv(Next(s, e))
  {
    hide Lists, OneEach, Reclaimed, Loaded;
    match e {
      case Incref(x) => CountedKeeps(s.vn, x, 1);
      case Decref(x) =>
        if s.vn[x].count > 1 {
          CountedKeeps(s.vn, x, -1);
        }
      case Reclaim(x) => ReclaimKeeps(s, x);
      case Load(ino, id) => LoadKeeps(s, ino, id);
    }
  }

  ghost predicate Run(s: Pool, es: seq<Event>, t: Pool)
    decreases |es|
  {
    if es == [] then s == t
    else Inv(s) && Enabled(s, es[0]) && Run(Next(s, es[0]), es[1..], t)
  }

  const EMPTY: Pool := Pool([], map[], map[], map[])

  lemma {:induction false} RunKeeps(s: Pool, es: seq<Event>, t: Pool)
    requires Inv(s) && Run(s, es, t)
    ensures Inv(t)
    decreases |es|
  {
    if es != [] {
      StepKeeps(s, es[0]);
      RunKeeps(Next(s, es[0]), es[1..], t);
    }
  }

  /** From a fresh mount on, whatever the threads do: at most one vnode per inode, a referenced vnode is loaded, and
      at most one thread is about to reclaim it. */
  lemma AlwaysOneVnode(es: seq<Event>, t: Pool)
    requires Run(EMPTY, es, t)
    ensures forall x, y :: x in t.vn && y in t.vn && t.vn[x].ino == t.vn[y].ino ==> x == y
    ensures forall x: nat :: In(t.held, x) > 0 ==> x in t.vn && t.vn[x].count == In(t.held, x) + In(t.pending, x)
    ensures forall x: nat :: In(t.pending, x) <= 1
    ensures forall x :: x in t.vn ==> In(t.held, x) > 0 || In(t.pending, x) > 0
  {
    RunKeeps(EMPTY, es, t);
  }

  ghost predicate IsLoaded(s: Pool, ino: nat) {
    exists z :: z in s.vn && s.vn[z].ino == ino
  }

  /** The event gives the thread a reference to `y`: by incref, or by loading the inode, which finds its vnode if there
      is one and makes a new one if there is not. */
  ghost predicate Gets(s: Pool, e: Event, y: nat) {
    || e == Incref(y)
    || (e.Load? && if IsLoaded(s, e.ino) then y in s.vn && s.vn[y].ino == e.ino else y == e.id)
  }

  /** What an event does to the references to a vnode, to its reclaimers and to the vnode. */
  ghost predicate Effects(s: Pool, e: Event, y: nat, r: Pool) {
    && In(r.held, y) == In(s.held, y) + (if Gets(s, e, y) then 1 else 0) - (if e == Decref(y) then 1 else 0)
    && In(r.pending, y) == In(s.pending, y) + (if e == Decref(y) && y in s.vn && s.vn[y].count == 1 then 1 else 0)
                           - (if e == Reclaim(y) then 1 else 0)
    && (y in r.vn <==> (y in s.vn && !(e == Reclaim(y) && s.vn[y].count == 1)) || Gets(s, e, y))
    && (y in s.vn && y in r.vn ==> r.vn[y].ino == s.vn[y].ino)
    && (y !in s.vn && y in r.vn ==> e.Load? && r.vn[y].ino == e.ino)
  }

  lemma LoadEffects(s: Pool, ino: nat, id: nat, y: nat)
    requires Inv(s) && id !in s.vn
    ensures Effects(s, Load(ino, id), y, Loaded(s, ino, id))
  {
    var k := Lookup(s.table, s.vn, ino, 0);
    if k < |s.table| {
      assert s.table[k] in s.vn && s.vn[s.table[k]].ino == ino;
    }
  }

  /** An incref or a load gives one reference, a decref takes one, the last decref leaves a reclaimer, and only a
      reclaimer that is alone unloads the vnode. */
  lemma EventEffects(s: Pool, e: Event, y: nat)
    requires Inv(s) && Enabled(s, e)
    ensures Effects(s, e, y, Next(s, e))
  {
    hide Lists, OneEach, Loaded;
    match e
    case Incref(x) =>
    case Decref(x) =>
    case Reclaim(x) =>
    case Load(ino, id) => LoadEffects(s, ino, id, y);
  }

  /** References to `y` gained less those dropped. */
  ghost function Balance(s: Pool, es: seq<Event>, y: nat): int
    requires Inv(s)
    decreases |es|
  {
    if es == [] || !Enabled(s, es[0]) then 0
    else
      StepKeeps(s, es[0]);
      (if Gets(s, es[0], y) then 1 else 0) - (if es[0] == Decref(y) then 1 else 0) + Balance(Next(s, es[0]), es[1..], y)
  }

  /** Over every run the references to a vnode are those it had and those the events gave, less those they dropped. */
  lemma {:induction false} ReferencesBalance(s: Pool, es: seq<Event>, t: Pool, y: nat)
    requires Inv(s) && Run(s, es, t)
    ensures In(t.held, y) == In(s.held, y) + Balance(s, es, y)
    decreases |es|
  {
    hide Next, Gets;
    if es != [] {
      StepKeeps(s, es[0]);
      EventEffects(s, es[0], y);
      ReferencesBalance(Next(s, es[0]), es[1..], t, y);
    }
  }

  /** One step leaves a reference good, unless it drops the only one. */
  lemma HeldStep(s: Pool, e: Event, x: nat)
    requires Inv(s) && Enabled(s, e) && In(s.held, x) > 0 && (e == Decref(x) ==> In(s.held, x) >= 2)
    ensures In(Next(s, e).held, x) > 0 && x in Next(s, e).vn && Next(s, e).vn[x].ino == s.vn[x].ino
  {
    hide Lists, OneEach;
  }

  /** As long as a thread keeps a reference, the vnode stays loaded and is the same file. */
  lemma {:induction false} ReferenceStays(s: Pool, es: seq<Event>, t: Pool, x: nat)
    requires Inv(s) && Run(s, es, t) && In(s.held, x) > 0
    requires forall k :: 0 <= k < |es| && es[k] == Decref(x) ==> Shared(s, es[..k], x)
    ensures x in t.vn && t.vn[x].ino == s.vn[x].ino && In(t.held, x) > 0
    decreases |es|
  {
    hide Lists, OneEach, Next;
    if es != [] {
      StepKeeps(s, es[0]);
      var s1 := Next(s, es[0]);
      if es[0] == Decref(x) {
        assert es[..0] == [];
        assert Shared(s, [], x);
      }
      HeldStep(s, es[0], x);
      forall k | 0 <= k < |es[1..]| && es[1..][k] == Decref(x)
        ensures Shared(s1, es[1..][..k], x)
      {
        assert es[k + 1] == Decref(x);
        assert es[..k + 1][0] == es[0] && es[..k + 1][1..] == es[1..][..k];
      }
      ReferenceStays(s1, es[1..], t, x);
    }
  }

  /** After `es`, somebody besides the one thread still has a reference to `x`. */
  ghost predicate Shared(s: Pool, es: seq<Event>, x: nat)
    decreases |es|
  {
    if es == [] then In(s.held, x) >= 2
    else Inv(s) && Enabled(s, es[0]) && Shared(Next(s, es[0]), es[1..], x)
  }

  // ---------------------------------------------------------------- the code

  class Vnodes {
    var table: seq<nat>
    var vn: map<nat, Vn>
    ghost var held: Bag
    ghost var pending: Bag

    ghost function V(): Pool
      reads this
    {
      Pool(table, vn, held, pending)
    }

    constructor ()
      ensures V() == EMPTY
    {
      table, vn, held, pending := [], map[], map[], map[];
    }

    /** vnode_incref. */
    method IncRef(x: nat)
      requires Inv(V()) && Enabled(V(), Incref(x))
      modifies this
      ensures V() == Next(old(V()), Incref(x)) && Inv(V())
    {
      hide Lists, OneEach;
      StepKeeps(V(), Incref(x));
      vn := vn[x := vn[x].(count := vn[x].count + 1)];
      held := More(held, x);
    }

    /** The locked section of vnode_decref; the result says whether sfs_reclaim is to be called. */
    method DecRef(x: nat) returns (actuallyDoIt: bool)
      requires Inv(V()) && Enabled(V(), Decref(x))
      modifies this
      ensures V() == Next(old(V()), Decref(x)) && Inv(V())
      ensures actuallyDoIt <==> In(pending, x) > In(old(pending), x)
    {
      hide Lists, OneEach;
      StepKeeps(V(), Decref(x));
      assert vn[x].count > 0;
      actuallyDoIt := vn[x].count <= 1;
      held := Less(held, x);
      if vn[x].count > 1 {
        vn := vn[x := vn[x].(count := vn[x].count - 1)];
      } else {
        pending := More(pending, x);
      }
    }

    /** sfs_reclaim, as far as the vnode table is concerned. Its vnode is always in the table. */
    method ReclaimVnode(x: nat) returns (busy: bool)
      requires Inv(V()) && Enabled(V(), Reclaim(x))
      modifies this
      ensures V() == Next(old(V()), Reclaim(x)) && Inv(V())
      ensures busy <==> x in vn
    {
      hide Lists, OneEach;
      StepKeeps(V(), Reclaim(x));
      Found(table, vn.Keys, x);
      pending := Less(pending, x);
      if vn[x].count != 1 {
        assert vn[x].count > 1;
        vn := vn[x := vn[x].(count := vn[x].count - 1)];
        return true;
      }
      var ix := -1;
      var i := 0;
      while i < |table|
        invariant 0 <= i <= |table| && ix == -1 && forall j :: 0 <= j < i ==> table[j] != x
      {
        if table[i] == x {
          ix := i;
          break;
        }
        i := i + 1;
      }
      assert ix >= 0;
      assert ix == IndexOf(table, x, 0);
      table := table[..ix] + table[ix + 1..];
      vn := vn - {x};
      busy := false;
    }

    /** sfs_loadvnode, as far as the vnode table is concerned; `id` is the storage a new vnode would get. */
    method LoadVnode(ino: nat, id: nat) returns (x: nat)
      requires Inv(V()) && Enabled(V(), Load(ino, id))
      modifies this
      ensures V() == Next(old(V()), Load(ino, id)) && Inv(V())
      ensures x in vn && vn[x].ino == ino && held == More(old(held), x)
    {
      hide Lists, OneEach, CountsRefs, In;
      StepKeeps(V(), Load(ino, id));
      Searchable(table, vn.Keys);
      ghost var k := Lookup(table, vn, ino, 0);
      var i := 0;
      while i < |table|
        invariant 0 <= i <= k && V() == old(V())
      {
        x := table[i];
        if vn[x].ino == ino {
          vn := vn[x := vn[x].(count := vn[x].count + 1)];
          held := More(held, x);
          return;
        }
        i := i + 1;
      }
      x := id;
      vn := vn[x := Vn(ino, 1)];
      table := table + [x];
      held := More(held, x);
    }
  }
}
