/** The additive feedback generator of libc, os161/lib/libc/random.c. A state buffer is an array of 32-bit words:
    word 0 remembers the type and, while the buffer is not in use, the rear pointer; the rest is the table. */
module Random {
  import opened Words

  const MAX_TYPES: nat := 5

  function With(s: seq<Word>, i: nat, x: Word): (r: seq<Word>)
    requires i < |s|
    ensures |r| == |s| && forall k :: 0 <= k < |s| ==> r[k] == if k == i then x else s[k]
  {
    s[i := x]
  }

  function Deg(ty: nat): nat {
    if ty == 0 then 0 else if ty == 1 then 7 else if ty == 2 then 15 else if ty == 3 then 31 else 63
  }

  function Sep(ty: nat): nat {
    if ty == 0 then 0 else if ty == 1 then 3 else if ty == 2 then 1 else if ty == 3 then 3 else 1
  }

  /** The words a buffer for the type takes. */
  function Size(ty: nat): nat {
    if ty == 0 then 2 else 1 + Deg(ty)
  }

  /** The largest type whose state fits `n` bytes, of which there are at least eight. */
  function TypeFor(n: nat): (ty: nat)
    requires n >= 8
    ensures ty < MAX_TYPES && 4 * Size(ty) <= n && (ty < 4 ==> n < 4 * Size(ty + 1))
  {
    if n < 32 then 0 else if n < 64 then 1 else if n < 128 then 2 else if n < 256 then 3 else 4
  }

  // ---------------------------------------------------------------- one generator

  /** A generator in use: its type, its table and the place of the rear pointer. */
  datatype Gen = Gen(ty: nat, table: seq<Word>, rear: nat)

  predicate Good(g: Gen) {
    && g.ty < MAX_TYPES && |g.table| + 1 >= Size(g.ty)
    && (if g.ty == 0 then g.rear == 0 else g.rear < Deg(g.ty))
  }

  /** `n` round a table of the type, for `n` less than twice its size. */
  function Wrap(ty: nat, n: nat): nat {
    if n >= Deg(ty) then n - Deg(ty) else n
  }

  lemma WrapIsMod(ty: nat, n: nat)
    requires 0 < ty < MAX_TYPES && n < 2 * Deg(ty)
    ensures Wrap(ty, n) == n % Deg(ty) < Deg(ty)
  {
    hide Deg;
    if n >= Deg(ty) {
      ModOf(Deg(ty), 1, n - Deg(ty));
    } else {
      SmallMod(n, Deg(ty));
    }
  }

  /** The front pointer is always this far ahead of the rear one. */
  function Front(ty: nat, rear: nat): nat {
    Wrap(ty, rear + Sep(ty))
  }

  function Lcg(x: Word): Word {
    (1103515245 * x + 12345) % U32
  }

  function Draw(g: Gen): (r: (Gen, Word))
    requires Good(g)
    ensures Good(r.0) && r.0.ty == g.ty && |r.0.table| == |g.table| && r.1 < 0x8000_0000
  {
    if g.ty == 0 then
      var i: Word := Lcg(g.table[0]) % 0x8000_0000;
      (g.(table := With(g.table, 0, i)), i)
    else
      var f := Front(g.ty, g.rear);
      var sum: Word := (g.table[f] + g.table[g.rear]) % U32;
      (Gen(g.ty, With(g.table, f, sum), Wrap(g.ty, g.rear + 1)), sum / 2)
  }

  /** The generator after `k` draws. */
  function Drawn(g: Gen, k: nat): (r: Gen)
    requires Good(g)
    ensures Good(r) && r.ty == g.ty && |r.table| == |g.table|
  {
    if k == 0 then g else Draw(Drawn(g, k - 1)).0
  }

  lemma DrawRear(g: Gen)
    requires Good(g) && g.ty > 0
    ensures Draw(g).0.rear == Wrap(g.ty, g.rear + 1)
  {
  }

  /** After any number of draws the rear pointer is where that many steps round the table lead. */
  lemma {:induction false} DrawnRear(g: Gen, k: nat)
    requires Good(g) && g.ty > 0
    ensures Drawn(g, k).rear == (g.rear + k) % Deg(g.ty)
  {
    hide Deg, Draw;
    if k > 0 {
      DrawnRear(g, k - 1);
      DrawRear(Drawn(g, k - 1));
      NextRear(g.ty, g.rear + (k - 1));
    } else {
      SmallMod(g.rear, Deg(g.ty));
    }
  }

  lemma NextRear(ty: nat, n: nat)
    requires 0 < ty < MAX_TYPES
    ensures Wrap(ty, n % Deg(ty) + 1) == (n + 1) % Deg(ty)
  {
    StepMod(n, Deg(ty));
  }

  lemma SmallMod(r: nat, d: nat)
    requires r < d
    ensures r % d == r
  {
  }

  lemma StepMod(n: nat, d: nat)
    requires d > 1
    ensures (n + 1) % d == if n % d + 1 >= d then 0 else n % d + 1
  {
    var q, r := n / d, n % d;
    assert n + 1 == d * q + (r + 1);
    if r + 1 >= d {
      assert n + 1 == d * (q + 1);
      ModOf(d, q + 1, 0);
    } else {
      ModOf(d, q, r + 1);
    }
  }

  lemma ModOf(d: nat, q: nat, r: nat)
    requires r < d
    ensures (d * q + r) % d == r
  {
    var n := d * q + r;
    assert n == d * (n / d) + n % d;
    var e := q - n / d;
    assert d * e == d * q - d * (n / d);
    SmallMultiple(d, e);
  }

  lemma SmallMultiple(d: int, e: int)
    requires d > 0
    ensures e >= 1 ==> d * e >= d
    ensures e <= -1 ==> d * e <= -d
  {
  }

  /** The front pointer steps with the rear one, and when it wraps the rear one does not. */
  lemma PointersStep(ty: nat, rear: nat)
    requires 0 < ty < MAX_TYPES && rear < Deg(ty)
    ensures var f := Front(ty, rear);
            && f < Deg(ty) && f != rear && f == (rear + Sep(ty)) % Deg(ty)
            && Front(ty, Wrap(ty, rear + 1)) == (if f + 1 >= Deg(ty) then 0 else f + 1)
            && (f + 1 >= Deg(ty) ==> Wrap(ty, rear + 1) == rear + 1 < Deg(ty))
  {
    WrapIsMod(ty, rear + Sep(ty));
  }

  lemma FrontInside(ty: nat, rear: nat)
    requires 0 < ty < MAX_TYPES && rear < Deg(ty)
    ensures Front(ty, rear) < Deg(ty) == Size(ty) - 1 && Wrap(ty, rear + 1) < Deg(ty)
  {
  }

  /** The table a seed gives before it is warmed up. */
  function Filled(x: Word, n: nat): (t: seq<Word>)
    requires n >= 1
    ensures |t| == n && t[0] == x && forall i :: 1 <= i < n ==> t[i] == Lcg(t[i - 1])
  {
    if n == 1 then [x] else var t := Filled(x, n - 1); t + [Lcg(t[n - 2])]
  }

  function Seeded(ty: nat, x: Word, rest: seq<Word>): (g: Gen)
    requires ty < MAX_TYPES
    ensures Good(g) && g.ty == ty
  {
    if ty == 0 then Gen(0, [x] + rest, 0)
    else Drawn(Gen(ty, Filled(x, Deg(ty)) + rest, 0), 10 * Deg(ty))
  }

  /** Seeding draws a whole number of rounds, so the rear pointer ends where it began. */
  lemma SeededRear(ty: nat, x: Word, rest: seq<Word>)
    requires ty < MAX_TYPES
    ensures Seeded(ty, x, rest).rear == 0
  {
    if ty > 0 {
      DrawnRear(Gen(ty, Filled(x, Deg(ty)) + rest, 0), 10 * Deg(ty));
      ModOf(Deg(ty), 10, 0);
    }
  }

  /** Where draw number `k` from `g` puts its sum, and the sum itself. */
  function FrontAt(g: Gen, k: nat): (f: nat)
    requires Good(g) && g.ty > 0
    ensures f < Deg(g.ty) && f < |g.table|
  {
    FrontInside(g.ty, Drawn(g, k).rear);
    Front(g.ty, Drawn(g, k).rear)
  }

  function SumAt(g: Gen, k: nat): Word
    requires Good(g) && g.ty > 0
  {
    Drawn(g, k + 1).table[FrontAt(g, k)]
  }

  lemma SumIs(g: Gen, k: nat)
    requires Good(g) && g.ty > 0
    ensures Drawn(g, k).rear < Deg(g.ty)
    ensures SumAt(g, k) == (Drawn(g, k).table[FrontAt(g, k)] + Drawn(g, k).table[Drawn(g, k).rear]) % U32
    ensures Draw(Drawn(g, k)).1 == SumAt(g, k) / 2
    ensures forall p :: 0 <= p < |g.table| && p != FrontAt(g, k) ==> Drawn(g, k + 1).table[p] == Drawn(g, k).table[p]
  {
    hide Wrap, Deg, Sep;
    FrontInside(g.ty, Drawn(g, k).rear);
  }

  lemma {:induction false} FrontSteps(g: Gen, k: nat, j: nat)
    requires Good(g) && g.ty > 0
    ensures FrontAt(g, k + j) == (FrontAt(g, k) + j) % Deg(g.ty)
  {
    hide Drawn, Deg, Sep, Wrap, FrontAt, Front;
    if j == 0 {
      SmallMod(FrontAt(g, k), Deg(g.ty));
    } else {
      FrontSteps(g, k, j - 1);
      var i, m := k + (j - 1), FrontAt(g, k) + (j - 1);
      FrontNext(g, i);
      NextRear(g.ty, m);
      assert i + 1 == k + j && m + 1 == FrontAt(g, k) + j;
    }
  }

  lemma FrontNext(g: Gen, k: nat)
    requires Good(g) && g.ty > 0
    ensures FrontAt(g, k + 1) == Wrap(g.ty, FrontAt(g, k) + 1)
  {
    hide Deg, Sep;
    DrawRear(Drawn(g, k));
    PointersStep(g.ty, Drawn(g, k).rear);
  }

  /** A sum stays in the table until the front pointer has gone all the way round. */
  lemma {:induction false} SumStays(g: Gen, k: nat, j: nat)
    requires Good(g) && g.ty > 0 && 1 <= j <= Deg(g.ty)
    ensures Drawn(g, k + j).table[FrontAt(g, k)] == SumAt(g, k)
  {
    hide Drawn, Deg, Front;
    if j > 1 {
      SumStays(g, k, j - 1);
      FrontSteps(g, k, j - 1);
      SumIs(g, k + j - 1);
      NotBack(g.ty, FrontAt(g, k), j - 1);
    }
  }

  lemma NotBack(ty: nat, f: nat, j: nat)
    requires 0 < ty < MAX_TYPES && f < Deg(ty) && 0 < j < Deg(ty)
    ensures (f + j) % Deg(ty) != f
  {
    WrapIsMod(ty, f + j);
  }

  /** The trinomial at work: every sum is the sum, in 32 bits, of the one `deg` and the one `sep` draws before. */
  lemma Recurrence(g: Gen, n: nat)
    requires Good(g) && g.ty > 0 && n >= Deg(g.ty)
    ensures SumAt(g, n) == (SumAt(g, n - Deg(g.ty)) + SumAt(g, n - Sep(g.ty))) % U32
    ensures Draw(Drawn(g, n)).1 == SumAt(g, n) / 2
  {
    hide Drawn, SumAt, Deg, Sep, Draw, FrontAt;
    SepSmall(g.ty);
    SumIs(g, n);
    SumStays(g, n - Deg(g.ty), Deg(g.ty));
    FrontRound(g, n - Deg(g.ty));
    SumStays(g, n - Sep(g.ty), Sep(g.ty));
    RearWasFront(g, n);
  }

  lemma SepSmall(ty: nat)
    requires 0 < ty < MAX_TYPES
    ensures 1 <= Sep(ty) < Deg(ty)
  {
  }

  lemma FrontRound(g: Gen, k: nat)
    requires Good(g) && g.ty > 0
    ensures FrontAt(g, k + Deg(g.ty)) == FrontAt(g, k)
  {
    FrontSteps(g, k, Deg(g.ty));
    WrapIsMod(g.ty, FrontAt(g, k) + Deg(g.ty));
  }

  lemma RearWasFront(g: Gen, n: nat)
    requires Good(g) && g.ty > 0 && n >= Sep(g.ty)
    ensures FrontAt(g, n - Sep(g.ty)) == Drawn(g, n).rear
  {
    hide Drawn;
    var s := Sep(g.ty);
    var r := Drawn(g, n - s).rear;
    DrawnRear(g, n - s);
    DrawnRear(g, n);
    ModOfSum(g.rear + (n - s), s, Deg(g.ty));
    WrapIsMod(g.ty, r + s);
  }

  lemma ModOfSum(a: nat, b: nat, d: nat)
    requires d > 0
    ensures (a + b) % d == (a % d + b) % d
  {
    var q, r := a / d, a % d;
    var q2, r2 := (r + b) / d, (r + b) % d;
    assert a + b == d * (q + q2) + r2;
    ModOf(d, q + q2, r2);
  }

  // ---------------------------------------------------------------- buffers

  /** All state buffers; the one in use is `cur`. */
  datatype World = World(bufs: map<nat, seq<Word>>, cur: nat, ty: nat, rear: nat)

  ghost predicate Ok(w: World) {
    w.cur in w.bufs && |w.bufs[w.cur]| >= 2 && Good(GenOf(w))
  }

  function GenOf(w: World): Gen
    requires w.cur in w.bufs && |w.bufs[w.cur]| >= 1
  {
    Gen(w.ty, w.bufs[w.cur][1..], w.rear)
  }

  function Tag(ty: nat, rear: nat): nat {
    if ty == 0 then 0 else MAX_TYPES * rear + ty
  }

  lemma TagFits(ty: nat, rear: nat)
    requires ty < MAX_TYPES && (ty > 0 ==> rear < Deg(ty))
    ensures Tag(ty, rear) < 0x8000_0000
    ensures Tag(ty, rear) % MAX_TYPES == ty && (ty > 0 ==> Tag(ty, rear) / MAX_TYPES == rear)
  {
  }

  function Saved(w: World): World
    requires Ok(w)
  {
    TagFits(w.ty, w.rear);
    w.(bufs := w.bufs[w.cur := With(w.bufs[w.cur], 0, Tag(w.ty, w.rear))])
  }

  /** A buffer that setstate can take: it was saved by setstate or initstate. */
  ghost predicate Usable(w: World, b: nat) {
    && b in w.bufs && |w.bufs[b]| >= 2 && w.bufs[b][0] < 0x8000_0000
    && var ty, rear := w.bufs[b][0] % MAX_TYPES, w.bufs[b][0] / MAX_TYPES;
       |w.bufs[b]| >= Size(ty) && (ty > 0 ==> rear < Deg(ty))
  }

  /** The world with `g` in the buffer in use, its tag as before. */
  ghost function InPlace(w: World, g: Gen): World
    requires w.cur in w.bufs && |w.bufs[w.cur]| >= 1
  {
    World(w.bufs[w.cur := [w.bufs[w.cur][0]] + g.table], w.cur, g.ty, g.rear)
  }

  datatype Op = DoRandom | DoSeed(seed: Word) | DoInit(seed: Word, b: nat, n: nat) | DoSet(b: nat)

  ghost predicate Enabled(w: World, op: Op) {
    match op
    case DoRandom => true
    case DoSeed(_) => true
    case DoInit(_, b, n) => b in w.bufs && n <= 4 * |w.bufs[b]|
    case DoSet(b) => Usable(w, b)
  }

  ghost function Apply(w: World, op: Op): (w': World)
    requires Ok(w) && Enabled(w, op)
    ensures Ok(w')
  {
    match op
    case DoRandom => InPlace(w, Draw(GenOf(w)).0)
    case DoSeed(x) => InPlace(w, Seeded(w.ty, x, w.bufs[w.cur][Size(w.ty)..]))
    case DoInit(seed, b, n) =>
      var s := Saved(w);
      if n < 8 then s
      else
        var ty := TypeFor(n);
        var g := Seeded(ty, seed, s.bufs[b][Size(ty)..]);
        TagFits(ty, g.rear);
        World(s.bufs[b := [Tag(ty, g.rear)] + g.table], b, ty, g.rear)
    case DoSet(b) =>
      // The tag is read before the buffer in use is saved.
      var tag := w.bufs[b][0];
      var s := Saved(w);
      var ty := tag % MAX_TYPES;
      s.(cur := b, ty := ty, rear := if ty == 0 then 0 else tag / MAX_TYPES)
  }

  /** The operation does not name buffer `a`. */
  predicate Avoids(op: Op, a: nat) {
    match op
    case DoRandom => true
    case DoSeed(_) => true
    case DoInit(_, b, _) => b != a
    case DoSet(b) => b != a
  }

  ghost predicate Run(w: World, ops: seq<Op>, t: World)
    decreases |ops|
  {
    if ops == [] then w == t
    else Ok(w) && Enabled(w, ops[0]) && Run(Apply(w, ops[0]), ops[1..], t)
  }

  /** A buffer that is not in use stays as it is. */
  lemma {:induction false} Untouched(w: World, ops: seq<Op>, t: World, a: nat)
    requires Ok(w) && Run(w, ops, t) && a in w.bufs && w.cur != a
    requires forall k :: 0 <= k < |ops| ==> Avoids(ops[k], a)
    ensures Ok(t) && a in t.bufs && t.bufs[a] == w.bufs[a] && t.cur != a
    decreases |ops|
  {
    if ops != [] {
      Untouched(Apply(w, ops[0]), ops[1..], t, a);
    }
  }

  /** Leave a buffer by initstate or setstate, do anything with the others, and come back: the generator goes on
      exactly where it was. */
  lemma Resume(w: World, leave: Op, ops: seq<Op>, t: World)
    requires Ok(w) && Enabled(w, leave) && Avoids(leave, w.cur) && Apply(w, leave).cur != w.cur
    requires forall k :: 0 <= k < |ops| ==> Avoids(ops[k], w.cur)
    requires Run(Apply(w, leave), ops, t)
    ensures Ok(t) && Enabled(t, DoSet(w.cur)) && GenOf(Apply(t, DoSet(w.cur))) == GenOf(w)
  {
    var a := w.cur;
    var w1 := Apply(w, leave);
    TagFits(w.ty, w.rear);
    assert w1.bufs[a] == With(w.bufs[a], 0, Tag(w.ty, w.rear));
    Untouched(w1, ops, t, a);
    assert t.bufs[a][1..] == w.bufs[a][1..];
  }

  /** The comment on setstate says it may be called with the state in use. That is so exactly when the tag of the
      buffer is up to date. */
  lemma SetCurrent(w: World)
    requires Ok(w) && Usable(w, w.cur)
    ensures GenOf(Apply(w, DoSet(w.cur))) == GenOf(w) <==>
            w.bufs[w.cur][0] % MAX_TYPES == w.ty && (w.ty > 0 ==> w.bufs[w.cur][0] / MAX_TYPES == w.rear)
  {
    assert Saved(w).bufs[w.cur][1..] == w.bufs[w.cur][1..];
  }

  lemma SetCurrentTag(w: World, rear: nat)
    requires Ok(w) && 0 < w.ty && rear < Deg(w.ty) && w.bufs[w.cur][0] == Tag(w.ty, rear)
    ensures Usable(w, w.cur) && (GenOf(Apply(w, DoSet(w.cur))) == GenOf(w) <==> rear == w.rear)
  {
    TagFits(w.ty, rear);
    SetCurrent(w);
  }

  /** Where the rear pointer is after draws and reseedings. */
  function RearAfter(ty: nat, rear: nat, ops: seq<Op>): nat
    decreases |ops|
  {
    if ops == [] then rear
    else RearAfter(ty, if ops[0].DoSeed? then 0 else Wrap(ty, rear + 1), ops[1..])
  }

  lemma {:induction false} StaysHere(w: World, ops: seq<Op>, t: World)
    requires Ok(w) && w.ty > 0 && Run(w, ops, t) && forall k :: 0 <= k < |ops| ==> ops[k].DoRandom? || ops[k].DoSeed?
    ensures Ok(t) && t.cur == w.cur && t.ty == w.ty && t.rear == RearAfter(w.ty, w.rear, ops)
    ensures t.bufs[t.cur][0] == w.bufs[w.cur][0]
    decreases |ops|
  {
    hide Draw, Seeded, Lcg, Deg, Sep, Wrap;
    if ops != [] {
      if ops[0].DoSeed? {
        SeededRear(w.ty, ops[0].seed, w.bufs[w.cur][Size(w.ty)..]);
      } else {
        DrawRear(GenOf(w));
      }
      StaysHere(Apply(w, ops[0]), ops[1..], t);
    }
  }

  /** Draw and reseed in any way after an initstate or setstate and then call setstate with the same buffer: the
      state of the generator is kept exactly when the rear pointer has come back to where it was saved. */
  lemma SetCurrentAfter(w: World, ops: seq<Op>, t: World)
    requires Ok(w) && w.ty > 0 && w.bufs[w.cur][0] == Tag(w.ty, w.rear)
    requires Run(w, ops, t) && forall k :: 0 <= k < |ops| ==> ops[k].DoRandom? || ops[k].DoSeed?
    ensures Ok(t) && Usable(t, t.cur)
    ensures GenOf(Apply(t, DoSet(t.cur))) == GenOf(t) <==> RearAfter(w.ty, w.rear, ops) == w.rear
  {
    hide RearAfter, Deg, Sep, Apply, Usable, Tag, Size, Run;
    StaysHere(w, ops, t);
    SetCurrentTag(t, w.rear);
  }

  lemma {:induction false} RearAfterDraws(ty: nat, rear: nat, ops: seq<Op>)
    requires 0 < ty < MAX_TYPES && rear < Deg(ty) && forall k :: 0 <= k < |ops| ==> ops[k].DoRandom?
    ensures RearAfter(ty, rear, ops) == (rear + |ops|) % Deg(ty)
    decreases |ops|
  {
    hide Deg;
    if ops == [] {
      SmallMod(rear, Deg(ty));
    } else {
      WrapIsMod(ty, rear + 1);
      RearAfterDraws(ty, Wrap(ty, rear + 1), ops[1..]);
      ModOfSum(rear + 1, |ops| - 1, Deg(ty));
      assert rear + 1 + (|ops| - 1) == rear + |ops|;
    }
  }

  /** With draws alone, that is after a whole number of rounds of the table. */
  lemma SetCurrentDraws(w: World, ops: seq<Op>, t: World)
    requires Ok(w) && w.ty > 0 && w.bufs[w.cur][0] == Tag(w.ty, w.rear)
    requires Run(w, ops, t) && forall k :: 0 <= k < |ops| ==> ops[k].DoRandom?
    ensures Ok(t) && Usable(t, t.cur)
    ensures GenOf(Apply(t, DoSet(t.cur))) == GenOf(t) <==> |ops| % Deg(w.ty) == 0
  {
    hide RearAfter, Deg, Sep, Apply, Usable, Tag, Size, Run;
    SetCurrentAfter(w, ops, t);
    RearAfterDraws(w.ty, w.rear, ops);
    WholeRounds(w.ty, w.rear, |ops|);
  }

  lemma WholeRounds(ty: nat, rear: nat, k: nat)
    requires 0 < ty < MAX_TYPES && rear < Deg(ty)
    ensures (rear + k) % Deg(ty) == rear <==> k % Deg(ty) == 0
  {
    var d := Deg(ty);
    var q, m := k / d, k % d;
    if rear + m < d {
      ModOf(d, q, rear + m);
    } else {
      assert rear + k == d * (q + 1) + (rear + m - d);
      ModOf(d, q + 1, rear + m - d);
    }
  }

  /** Buffer `buf` with the first `n` places of its table filled. */
  ghost function Filling(buf: seq<Word>, x: Word, n: nat): (r: seq<Word>)
    requires 1 <= n < |buf|
    ensures |r| == |buf|
  {
    [buf[0]] + Filled(x, n) + buf[1 + n..]
  }

  lemma FillFirst(buf: seq<Word>, x: Word)
    requires 1 < |buf|
    ensures Filling(buf, x, 1) == With(buf, 1, x)
  {
  }

  lemma FillNext(buf: seq<Word>, x: Word, i: nat)
    requires 1 <= i && i + 1 < |buf|
    ensures Filling(buf, x, i + 1) == With(Filling(buf, x, i), i + 1, Lcg(Filling(buf, x, i)[i]))
  {
    hide Lcg;
    assert Filling(buf, x, i)[i] == Filled(x, i)[i - 1];
  }

  lemma FilledTable(buf: seq<Word>, now: seq<Word>, x: Word, n: nat)
    requires 1 <= n < |buf| && now == Filling(buf, x, n)
    ensures now[0] == buf[0] && now[1..] == Filled(x, n) + buf[1 + n..]
  {
  }

  lemma DrawNone(g: Gen)
    requires Good(g)
    ensures Drawn(g, 0) == g
  {
  }

  lemma SepIsFront(ty: nat)
    requires 0 < ty < MAX_TYPES
    ensures Front(ty, 0) == Sep(ty)
  {
  }

  lemma FrontIsMod(ty: nat, rear: nat)
    requires 0 < ty < MAX_TYPES && rear < Deg(ty)
    ensures Front(ty, rear) == (rear + Sep(ty)) % Deg(ty)
  {
    PointersStep(ty, rear);
  }

  lemma DrawMore(g: Gen, k: nat)
    requires Good(g)
    ensures Drawn(g, k + 1) == Draw(Drawn(g, k)).0
  {
  }

  /** The state buffer the program starts with. */
  const RANDTBL: seq<Word> :=
    [3,
     0x9a319039, 0x32d9c024, 0x9b663182, 0x5da1f342, 0xde3b81e0, 0xdf0a6fb5, 0xf103bc02, 0x48f340fb,
     0x7449e56b, 0xbeb1dbb0, 0xab5c5918, 0x946554fd, 0x8c2e680f, 0xeb3d799f, 0xb11ee0b7, 0x2d436b86,
     0xda672e2a, 0x1588ca88, 0xe369735d, 0x904f35f7, 0xd7158fd6, 0x6fa6f051, 0x616e6b96, 0xac94efdc,
     0x36413f93, 0xc622c298, 0xf5a42ab8, 0x8a88d77b, 0xf5ad9d0e, 0x8999220b, 0x27fb47b9]

  // ---------------------------------------------------------------- the code

  /** The static variables of random.c; the pointers are kept as indices into the table. */
  class Generator {
    var bufs: map<nat, seq<Word>>
    var state: nat            // the buffer in use
    var randType: nat
    var randDeg: nat
    var randSep: nat
    var fptr: nat
    var rptr: nat

    ghost function W(): World
      reads this
    {
      World(bufs, state, randType, if randType == 0 then 0 else rptr)
    }

    ghost predicate Valid()
      reads this
    {
      && Ok(W()) && randDeg == Deg(randType) && randSep == Sep(randType)
      && (randType > 0 ==> fptr == Front(randType, rptr))
    }

    /** The program starts with the generator of type 3 in its own buffer; `others` are the buffers of its callers. */
    constructor (others: map<nat, seq<Word>>)
      requires 0 !in others
      ensures Valid() && W() == World(others[0 := RANDTBL], 0, 3, 0)
    {
      bufs, state := others[0 := RANDTBL], 0;
      randType, randDeg, randSep := 3, 31, 3;
      fptr, rptr := 3, 0;
    }

    /** Store `x` at index `i` of the table in use. */
    method Store(i: nat, x: Word)
      requires state in bufs && i + 1 < |bufs[state]|
      modifies this`bufs
      ensures bufs == old(bufs)[state := With(old(bufs)[state], i + 1, x)]
    {
      bufs := bufs[state := With(bufs[state], i + 1, x)];
    }

    /** random. */
    method Draw1() returns (i: Word)
      requires Valid()
      modifies this`bufs, this`fptr, this`rptr
      ensures Valid() && i == Draw(GenOf(old(W()))).1 && W() == Apply(old(W()), DoRandom)
    {
      hide Lcg, Deg, Sep, Wrap, Seeded, Filled, Saved;
      ghost var buf := bufs[state];
      if randType == 0 {
        i := Lcg(bufs[state][1]) % 0x8000_0000;
        Store(0, i);
        assert bufs[state] == [buf[0]] + With(buf[1..], 0, i);
        assert bufs[state][1..] == With(buf[1..], 0, i);
      } else {
        FrontInside(randType, rptr);
        var f, r := fptr, rptr;
        var sum: Word := (bufs[state][f + 1] + bufs[state][r + 1]) % U32;
        Store(f, sum);
        assert bufs[state] == [buf[0]] + With(buf[1..], f, sum);
        assert bufs[state][1..] == With(buf[1..], f, sum);
        i := sum / 2;
        fptr, rptr := Step(f, r);
      }
    }

    /** Both pointers one place on, round the table. */
    method Step(front: nat, rear: nat) returns (f: nat, r: nat)
      requires 0 < randType < MAX_TYPES && randDeg == Deg(randType) && rear < randDeg && front == Front(randType, rear)
      ensures r == Wrap(randType, rear + 1) < randDeg && f == Front(randType, r)
    {
      PointersStep(randType, rear);
      f, r := front + 1, rear;
      if f >= randDeg {
        f := 0;
        r := r + 1;
      } else {
        r := r + 1;
        if r >= randDeg {
          r := 0;
        }
      }
    }

    /** Save the place of the rear pointer in the buffer in use. */
    method Save()
      requires Valid()
      modifies this`bufs
      ensures Valid() && W() == Saved(old(W()))
    {
      TagFits(randType, rptr);
      ghost var buf := bufs[state];
      var tag := if randType == 0 then 0 else MAX_TYPES * rptr + randType;
      bufs := bufs[state := With(bufs[state], 0, tag)];
      assert bufs[state][1..] == buf[1..];
    }

    /** srandom. */
    method Srandom(x: Word)
      requires Valid0()
      modifies this`bufs, this`fptr, this`rptr
      ensures Valid() && state in old(bufs) && |old(bufs[state])| >= Size(randType)
      ensures W() == InPlace(old(W()), Seeded(randType, x, old(bufs[state])[Size(randType)..]))
      ensures old(Valid()) ==> W() == Apply(old(W()), DoSeed(x))
    {
      hide Lcg, Deg, Sep, Wrap, Draw, Drawn;
      ghost var buf := bufs[state];
      if randType == 0 {
        Store(0, x);
        assert bufs[state][1..] == [x] + buf[2..];
        assert bufs[state] == [buf[0]] + bufs[state][1..];
        return;
      }
      Fill(x);
      fptr, rptr := randSep, 0;
      SepIsFront(randType);
      FilledTable(buf, bufs[state], x, randDeg);
      WarmUp();
      assert bufs[state] == [buf[0]] + bufs[state][1..];
    }

    /** The second loop of srandom. */
    method WarmUp()
      requires Valid() && randType > 0
      modifies this`bufs, this`fptr, this`rptr
      ensures Valid() && GenOf(W()) == Drawn(GenOf(old(W())), 10 * randDeg)
      ensures bufs == old(bufs)[state := bufs[state]] && bufs[state][0] == old(bufs)[state][0]
    {
      hide Deg, Sep, Draw, Drawn, Good;
      ghost var g0 := GenOf(W());
      var i := 0;
      DrawNone(g0);
      while i < 10 * randDeg
        invariant 0 <= i <= 10 * randDeg && Valid() && GenOf(W()) == Drawn(g0, i)
        invariant bufs == old(bufs)[state := bufs[state]] && bufs[state][0] == old(bufs)[state][0]
      {
        DrawMore(g0, i);
        var out := Draw1();
        assert bufs[state][1..] == Draw(Drawn(g0, i)).0.table;
        i := i + 1;
      }
    }

    /** As Valid, before the pointers are set. */
    ghost predicate Valid0()
      reads this
    {
      && state in bufs && randType < MAX_TYPES && |bufs[state]| >= Size(randType)
      && randDeg == Deg(randType) && randSep == Sep(randType)
    }

    /** The first loop of srandom. */
    method Fill(x: Word)
      requires Valid0() && randType > 0
      modifies this`bufs
      ensures state in bufs && bufs == old(bufs)[state := bufs[state]]
      ensures bufs[state] == Filling(old(bufs)[state], x, randDeg)
    {
      hide Lcg, Filling, Sep;
      ghost var buf := bufs[state];
      FillFirst(buf, x);
      Store(0, x);
      var i := 1;
      while i < randDeg
        invariant 1 <= i <= randDeg && state in bufs && bufs == old(bufs)[state := bufs[state]]
        invariant bufs[state] == Filling(buf, x, i)
      {
        FillNext(buf, x, i);
        Store(i, Lcg(bufs[state][i]));
        i := i + 1;
      }
    }

    /** initstate; fails for a buffer too small for any generator. */
    method InitState(seed: Word, b: nat, n: nat) returns (ok: bool, ostate: nat)
      requires Valid() && b in bufs && n <= 4 * |bufs[b]|
      modifies this
      ensures Valid() && W() == Apply(old(W()), DoInit(seed, b, n)) && ostate == old(state) && (ok <==> n >= 8)
    {
      hide Deg, Sep, Draw, Drawn, Lcg, Seeded;
      ostate := state;
      Save();
      if n < 8 {
        return false, ostate;
      }
      randType := TypeFor(n);
      randDeg, randSep := Deg(randType), Sep(randType);
      state := b;
      ghost var g := Seeded(randType, seed, bufs[b][Size(randType)..]);
      Srandom(seed);
      assert bufs[state][1..] == g.table;
      Save();
      assert bufs[state] == [Tag(g.ty, g.rear)] + g.table;
      ok := true;
    }

    /** setstate. */
    method SetState(b: nat) returns (ostate: nat)
      requires Valid() && Usable(W(), b)
      modifies this
      ensures Valid() && W() == Apply(old(W()), DoSet(b)) && ostate == old(state)
    {
      hide Deg, Sep, Draw, Lcg;
      var type_, rear := bufs[b][0] % MAX_TYPES, bufs[b][0] / MAX_TYPES;
      ostate := state;
      Save();
      randType, randDeg, randSep := type_, Deg(type_), Sep(type_);
      state := b;
      if randType != 0 {
        rptr := rear;
        FrontIsMod(randType, rear);
        fptr := (rear + randSep) % randDeg;
      }
    }
  }
}
