/** What a caller of random sees, os161/lib/libc/random.c: the sums drawn, of which random hands out all but the lowest
    bit, and how they depend on the table and the rear pointer together. */
module RandomSums {
  import opened Words
  import opened Random

  /** The table as seen from the rear pointer. */
  function View(g: Gen): (v: seq<Word>)
    requires Good(g) && g.ty > 0
    ensures |v| == Deg(g.ty) && forall i :: 0 <= i < Deg(g.ty) ==> v[i] == g.table[Wrap(g.ty, g.rear + i)]
  {
    seq<Word>(Deg(g.ty), i requires 0 <= i < Deg(g.ty) => g.table[Wrap(g.ty, g.rear + i)])
  }

  function SumOf(ty: nat, v: seq<Word>): Word
    requires 0 < ty < MAX_TYPES && |v| == Deg(ty)
  {
    (v[Sep(ty)] + v[0]) % U32
  }

  /** The view after one draw: it turns by one place and the sum takes the place of its first term. */
  function Turned(ty: nat, v: seq<Word>): (r: seq<Word>)
    requires 0 < ty < MAX_TYPES && |v| == Deg(ty)
    ensures |r| == Deg(ty) && forall i :: 0 <= i < Deg(ty) ==> r[i] == TurnedAt(ty, v, i)
  {
    seq<Word>(Deg(ty), i requires 0 <= i < Deg(ty) => TurnedAt(ty, v, i))
  }

  function TurnedAt(ty: nat, v: seq<Word>, i: nat): Word
    requires 0 < ty < MAX_TYPES && |v| == Deg(ty) && i < Deg(ty)
  {
    if i == Sep(ty) - 1 then SumOf(ty, v) else if i == Deg(ty) - 1 then v[0] else v[i + 1]
  }

  /** One place of the view after a draw. */
  lemma PlaceTurns(g: Gen, i: nat)
    requires Good(g) && g.ty > 0 && i < Deg(g.ty)
    ensures View(Draw(g).0)[i] == TurnedAt(g.ty, View(g), i)
  {
    hide Deg, Sep, View, Wrap;
    SepSmall(g.ty);
    FrontInside(g.ty, g.rear);
    NextPlace(g.ty, g.rear, Draw(g).0.rear, i);
    FrontPlace(g.ty, g.rear, i + 1);
    var h := Draw(g).0;
    assert View(h)[i] == h.table[Wrap(g.ty, h.rear + i)];
    assert View(g)[Sep(g.ty)] == g.table[Wrap(g.ty, g.rear + Sep(g.ty))];
    assert View(g)[0] == g.table[Wrap(g.ty, g.rear + 0)];
    assert i != Deg(g.ty) - 1 ==> View(g)[i + 1] == g.table[Wrap(g.ty, g.rear + (i + 1))];
  }

  /** The place `j` after the rear pointer is the front pointer exactly for the separation. */
  lemma FrontPlace(ty: nat, rear: nat, j: nat)
    requires 0 < ty < MAX_TYPES && rear < Deg(ty) && 0 < j <= Deg(ty)
    ensures Wrap(ty, rear + 0) == rear && Front(ty, rear) == Wrap(ty, rear + Sep(ty)) != rear
    ensures j < Deg(ty) ==> Wrap(ty, rear + j) < Deg(ty) && (Wrap(ty, rear + j) == Front(ty, rear) <==> j == Sep(ty))
  {
    hide Deg, Sep;
    SepSmall(ty);
  }

  lemma ViewTurns(g: Gen)
    requires Good(g) && g.ty > 0
    ensures View(Draw(g).0) == Turned(g.ty, View(g)) && Draw(g).1 == SumOf(g.ty, View(g)) / 2
  {
    hide Deg, Sep, View, Wrap;
    SepSmall(g.ty);
    FrontInside(g.ty, g.rear);
    FrontPlace(g.ty, g.rear, 1);
    assert View(g)[Sep(g.ty)] == g.table[Wrap(g.ty, g.rear + Sep(g.ty))];
    assert View(g)[0] == g.table[Wrap(g.ty, g.rear + 0)];
    forall i | 0 <= i < Deg(g.ty)
      ensures View(Draw(g).0)[i] == Turned(g.ty, View(g))[i]
    {
      PlaceTurns(g, i);
    }
  }

  /** Seen from the next rear pointer every place is one nearer, and the first one last. */
  lemma NextPlace(ty: nat, rear: nat, next: nat, i: nat)
    requires 0 < ty < MAX_TYPES && rear < Deg(ty) && next == Wrap(ty, rear + 1) && i < Deg(ty)
    ensures Wrap(ty, next + i) == if i == Deg(ty) - 1 then rear else Wrap(ty, rear + (i + 1))
  {
    hide Deg;
  }

  function Turns(ty: nat, v: seq<Word>, k: nat): (r: seq<Word>)
    requires 0 < ty < MAX_TYPES && |v| == Deg(ty)
    ensures |r| == Deg(ty)
  {
    if k == 0 then v else Turned(ty, Turns(ty, v, k - 1))
  }

  lemma {:induction false} ViewAfter(g: Gen, k: nat)
    requires Good(g) && g.ty > 0
    ensures View(Drawn(g, k)) == Turns(g.ty, View(g), k)
  {
    hide View, Turned, Draw;
    if k > 0 {
      ViewAfter(g, k - 1);
      ViewTurns(Drawn(g, k - 1));
    }
  }

  /** The sums are those of the views, and what is drawn is a sum without its lowest bit. */
  lemma SumsOfViews(g: Gen, k: nat)
    requires Good(g) && g.ty > 0
    ensures SumAt(g, k) == SumOf(g.ty, Turns(g.ty, View(g), k))
    ensures Draw(Drawn(g, k)).1 == SumAt(g, k) / 2
  {
    hide Drawn, Turns, Deg, Sep;
    SepSmall(g.ty);
    ViewAfter(g, k);
    SumIs(g, k);
    var h := Drawn(g, k);
    assert View(h)[Sep(g.ty)] == h.table[Wrap(g.ty, h.rear + Sep(g.ty))]
           && View(h)[0] == h.table[Wrap(g.ty, h.rear + 0)];
  }

  /** Two views that look the same after a draw were the same before. */
  lemma TurnedInjective(ty: nat, v: seq<Word>, w: seq<Word>)
    requires 0 < ty < MAX_TYPES && |v| == |w| == Deg(ty) && Turned(ty, v) == Turned(ty, w)
    ensures v == w
  {
    hide Deg, Sep;
    SepSmall(ty);
    var s := Sep(ty);
    assert Turned(ty, v)[Deg(ty) - 1] == v[0] && Turned(ty, w)[Deg(ty) - 1] == w[0];
    assert Turned(ty, v)[s - 1] == SumOf(ty, v) && Turned(ty, w)[s - 1] == SumOf(ty, w);
    AddCancels(v[s], w[s], v[0]);
    forall i | 0 < i < Deg(ty) && i != s
      ensures v[i] == w[i]
    {
      assert Turned(ty, v)[i - 1] == v[i] && Turned(ty, w)[i - 1] == w[i];
    }
  }

  lemma AddCancels(a: Word, b: Word, c: Word)
    requires (a + c) % U32 == (b + c) % U32
    ensures a == b
  {
  }

  lemma {:induction false} TurnsInjective(ty: nat, v: seq<Word>, w: seq<Word>, k: nat)
    requires 0 < ty < MAX_TYPES && |v| == |w| == Deg(ty) && Turns(ty, v, k) == Turns(ty, w, k)
    ensures v == w
  {
    hide Turned, Deg;
    if k > 0 {
      TurnedInjective(ty, Turns(ty, v, k - 1), Turns(ty, w, k - 1));
      TurnsInjective(ty, v, w, k - 1);
    }
  }

  /** Where sum number `k` is in the view after `n` draws. */
  function Place(ty: nat, n: nat, k: nat): int {
    if Sep(ty) + k >= n then Sep(ty) + k - n else Sep(ty) + k - n + Deg(ty)
  }

  /** For one round of the table every sum drawn can still be found in it. */
  lemma {:induction false} Remembered(ty: nat, v: seq<Word>, n: nat, k: nat)
    requires 0 < ty < MAX_TYPES && |v| == Deg(ty) && k < n <= Deg(ty)
    ensures 0 <= Place(ty, n, k) < Deg(ty) && Turns(ty, v, n)[Place(ty, n, k)] == SumOf(ty, Turns(ty, v, k))
  {
    hide Deg, Sep, SumOf;
    SepSmall(ty);
    var u := Turns(ty, v, n - 1);
    if k < n - 1 {
      Remembered(ty, v, n - 1, k);
    }
    assert Turns(ty, v, n) == Turned(ty, u);
  }

  /** A whole round of sums determines the view. */
  lemma SumsDetermine(ty: nat, v: seq<Word>, w: seq<Word>)
    requires 0 < ty < MAX_TYPES && |v| == |w| == Deg(ty)
    requires forall k :: 0 <= k < Deg(ty) ==> SumOf(ty, Turns(ty, v, k)) == SumOf(ty, Turns(ty, w, k))
    ensures v == w
  {
    hide Turns, SumOf, Deg, Sep, Place;
    var d := Deg(ty);
    var vd, wd := Turns(ty, v, d), Turns(ty, w, d);
    forall p | 0 <= p < d
      ensures vd[p] == wd[p]
    {
      var k := SumInPlace(ty, p);
      Remembered(ty, v, d, k);
      Remembered(ty, w, d, k);
    }
    TurnsInjective(ty, v, w, d);
  }

  lemma SumInPlace(ty: nat, p: nat) returns (k: nat)
    requires 0 < ty < MAX_TYPES && p < Deg(ty)
    ensures k < Deg(ty) && Place(ty, Deg(ty), k) == p
  {
    hide Deg, Sep;
    SepSmall(ty);
    k := if p >= Sep(ty) then p - Sep(ty) else p - Sep(ty) + Deg(ty);
  }

  /** Two generators of a type draw the same sums for ever exactly when their tables look the same from their rear
      pointers, and one round of sums is enough to tell. */
  lemma SameSums(g: Gen, h: Gen)
    requires Good(g) && Good(h) && g.ty == h.ty > 0
    ensures (forall k: nat :: SumAt(g, k) == SumAt(h, k)) <==> View(g) == View(h)
    ensures (forall k: nat :: k < Deg(g.ty) ==> SumAt(g, k) == SumAt(h, k)) <==> View(g) == View(h)
  {
    hide View, SumAt, SumOf, Turns, Deg;
    forall k: nat
      ensures SumAt(g, k) == SumOf(g.ty, Turns(g.ty, View(g), k))
      ensures SumAt(h, k) == SumOf(g.ty, Turns(g.ty, View(h), k))
    {
      SumsOfViews(g, k);
      SumsOfViews(h, k);
    }
    if forall k: nat :: k < Deg(g.ty) ==> SumAt(g, k) == SumAt(h, k) {
      SumsDetermine(g.ty, View(g), View(h));
    }
  }

  /** setstate with the buffer in use, as a caller sees it: the sums go on undisturbed exactly when the table looks the
      same from the place that was saved in the buffer as from where the rear pointer is. */
  lemma SetCurrentSums(w: World, rear: nat)
    requires Ok(w) && w.ty > 0 && rear < Deg(w.ty) && w.bufs[w.cur][0] == Tag(w.ty, rear)
    ensures Usable(w, w.cur) && GenOf(Apply(w, DoSet(w.cur))) == GenOf(w).(rear := rear)
    ensures (forall k: nat :: SumAt(GenOf(Apply(w, DoSet(w.cur))), k) == SumAt(GenOf(w), k)) <==>
            View(GenOf(w).(rear := rear)) == View(GenOf(w))
  {
    hide SumAt, View;
    SetCurrentTag(w, rear);
    SetTakesTag(w, rear);
    SameSums(GenOf(w).(rear := rear), GenOf(w));
  }

  lemma SetTakesTag(w: World, rear: nat)
    requires Ok(w) && w.ty > 0 && rear < Deg(w.ty) && w.bufs[w.cur][0] == Tag(w.ty, rear)
    ensures Usable(w, w.cur) && GenOf(Apply(w, DoSet(w.cur))) == GenOf(w).(rear := rear)
  {
    TagFits(w.ty, rear);
    assert Saved(w).bufs[w.cur][1..] == w.bufs[w.cur][1..];
  }

  /** One draw from a generator of type 3 with the rear pointer at 0, and then another, with or without a setstate in
      between. */
  lemma TwoDraws(w: World)
    requires w.cur in w.bufs && |w.bufs[w.cur]| == 32 && w.bufs[w.cur][0] == 3 && w.ty == 3 && w.rear == 0
    ensures Ok(w) && Usable(Apply(w, DoRandom), w.cur)
    ensures var b, t := w.bufs[w.cur], Apply(w, DoRandom);
            && Draw(GenOf(t)).1 == (b[5] + b[2]) % U32 / 2
            && Draw(GenOf(Apply(t, DoSet(w.cur)))).1 == ((b[4] + b[1]) % U32 + b[1]) % U32 / 2
  {
    hide Lcg, Seeded;
    var b, t := w.bufs[w.cur], Apply(w, DoRandom);
    assert GenOf(t).table == With(b[1..], 3, (b[4] + b[1]) % U32) && t.rear == 1;
    SetTakesTag(t, 0);
  }

  /** For instance in the program as it starts: after the first draw, setstate with its own buffer changes the next
      number. */
  lemma SetCurrentDisturbs()
    ensures var w := World(map[0 := RANDTBL], 0, 3, 0);
            && Ok(w) && Usable(Apply(w, DoRandom), 0)
            && Draw(GenOf(Apply(Apply(w, DoRandom), DoSet(0)))).1 != Draw(GenOf(Apply(w, DoRandom))).1
  {
    hide Draw, Apply, GenOf, Usable, Ok;
    TwoDraws(World(map[0 := RANDTBL], 0, 3, 0));
  }
}
