/** What the numbers that random returns say about the generator. A number is a sum of the recurrence without its lowest
    bit, and those lowest bits can be told from the carries they leave in later numbers. */
module RandomDraws {
  import opened Words
  import opened Random
  import opened RandomSums

  ghost predicate SameType(g: Gen, h: Gen) {
    Good(g) && Good(h) && g.ty == h.ty > 0
  }

  /** The generators draw the same numbers for ever. */
  ghost predicate SameDraws(g: Gen, h: Gen)
    requires SameType(g, h)
  {
    forall k: nat :: Draw(Drawn(g, k)).1 == Draw(Drawn(h, k)).1
  }

  ghost predicate Alike(g: Gen, h: Gen) {
    SameType(g, h) && SameDraws(g, h)
  }

  /** The bit of sum number `k` that the number drawn leaves out. */
  ghost predicate Low(g: Gen, k: nat)
    requires Good(g) && g.ty > 0
  {
    Odd(SumAt(g, k))
  }

  predicate Odd(a: Word) {
    a % 2 == 1
  }

  function Half(a: Word): Word {
    a / 2
  }

  function Plus(a: Word, b: Word): Word {
    (a + b) % U32
  }

  /** How far the two terms of the recurrence are apart. */
  function Gap(ty: nat): (q: int)
    ensures 0 < ty ==> 2 <= q < Deg(ty) && q + Sep(ty) == Deg(ty)
  {
    Deg(ty) - Sep(ty)
  }

  lemma Halves(g: Gen, h: Gen, k: nat)
    requires Alike(g, h)
    ensures Half(SumAt(g, k)) == Half(SumAt(h, k))
  {
    hide Draw, Drawn, SumAt;
    NumberIs(g, k);
    NumberIs(h, k);
    assert Draw(Drawn(g, k)).1 == Draw(Drawn(h, k)).1;
  }

  /** A number is a sum without its lowest bit. */
  lemma NumberIs(g: Gen, k: nat)
    requires Good(g) && g.ty > 0
    ensures Draw(Drawn(g, k)).1 == SumAt(g, k) / 2
  {
    SumIs(g, k);
  }

  /** In a sum of two words the lowest bits add by themselves, and carry into the rest when both are set. */
  lemma HalfSum(a: Word, b: Word)
    ensures Half(Plus(a, b)) == (Half(a) + Half(b) + if Odd(a) && Odd(b) then 1 else 0) % 0x8000_0000
    ensures Odd(Plus(a, b)) <==> Odd(a) != Odd(b)
  {
    var s := if a + b < U32 then a + b else a + b - U32;
    assert (a + b) % U32 == s;
    var t := a / 2 + b / 2 + if a % 2 == 1 && b % 2 == 1 then 1 else 0;
    assert t == (a + b) / 2;
  }

  /** So the rest of a sum tells whether both were set. */
  lemma Carries(a: Word, b: Word, a': Word, b': Word)
    requires Half(a) == Half(a') && Half(b) == Half(b') && Half(Plus(a, b)) == Half(Plus(a', b'))
    ensures Odd(a) && Odd(b) <==> Odd(a') && Odd(b')
  {
    hide Half, Odd, Plus;
    HalfSum(a, b);
    HalfSum(a', b');
    NextDiffers(Half(a) + Half(b));
  }

  lemma NextDiffers(t: nat)
    ensures t % 0x8000_0000 != (t + 1) % 0x8000_0000
  {
  }

  lemma SumOfTwo(g: Gen, n: nat)
    requires Good(g) && g.ty > 0 && n >= Deg(g.ty)
    ensures SumAt(g, n) == Plus(SumAt(g, n - Deg(g.ty)), SumAt(g, n - Deg(g.ty) + Gap(g.ty)))
  {
    hide SumAt, Deg, Sep, Good;
    Recurrence(g, n);
  }

  /** What the recurrence says of the lowest bits of two generators that draw the same numbers. */
  lemma LowBits(g: Gen, h: Gen, n: nat)
    requires Alike(g, h) && n >= Deg(g.ty)
    ensures var i, j := n - Deg(g.ty), n - Deg(g.ty) + Gap(g.ty);
            && (Low(g, n) <==> Low(g, i) != Low(g, j)) && (Low(h, n) <==> Low(h, i) != Low(h, j))
            && (Low(g, i) && Low(g, j) <==> Low(h, i) && Low(h, j))
  {
    hide SameDraws, SumAt, Deg, Sep, Half, Odd, Plus, Good;
    var i, j := n - Deg(g.ty), n - Deg(g.ty) + Gap(g.ty);
    SumOfTwo(g, n);
    SumOfTwo(h, n);
    Halves(g, h, n);
    Halves(g, h, i);
    Halves(g, h, j);
    Carries(SumAt(g, i), SumAt(g, j), SumAt(h, i), SumAt(h, j));
    HalfSum(SumAt(g, i), SumAt(g, j));
    HalfSum(SumAt(h, i), SumAt(h, j));
  }

  lemma AlikeBack(g: Gen, h: Gen)
    requires Alike(g, h)
    ensures Alike(h, g)
  {
  }

  /** Where the lowest bits differ they differ again one gap on, the other way round, and both are set one round on. */
  lemma DiffersNext(g: Gen, h: Gen, m: nat)
    requires Alike(g, h) && m >= Gap(g.ty) && Low(g, m) && !Low(h, m)
    ensures !Low(g, m + Gap(g.ty)) && Low(h, m + Gap(g.ty))
    ensures Low(g, m + Deg(g.ty)) && Low(h, m + Deg(g.ty))
  {
    hide SameDraws, Low, Deg, Sep;
    LowBits(g, h, m + Deg(g.ty));
    LowBits(g, h, m + Sep(g.ty));
    LowBits(g, h, m + Sep(g.ty) + Deg(g.ty));
  }

  lemma {:induction false} DiffersOn(g: Gen, h: Gen, m: nat, j: nat, n: nat)
    requires Alike(g, h) && m >= Gap(g.ty) && Low(g, m) != Low(h, m) && n == m + j * Gap(g.ty)
    ensures Low(g, n) != Low(h, n) && Low(g, n + Deg(g.ty)) && Low(h, n + Deg(g.ty))
    decreases j
  {
    hide SameDraws, Low, Deg, Sep, Gap;
    AlikeBack(g, h);
    if j > 0 {
      OneMore(j - 1, Gap(g.ty));
      var p := n - Gap(g.ty);
      DiffersOn(g, h, m, j - 1, p);
      if Low(g, p) {
        DiffersNext(g, h, p);
      } else {
        DiffersNext(h, g, p);
      }
    }
    if Low(g, n) {
      DiffersNext(g, h, n);
    } else {
      DiffersNext(h, g, n);
    }
  }

  lemma OneMore(x: nat, y: nat)
    ensures (x + 1) * y == x * y + y && x * y >= 0
  {
  }

  /** From two rounds on both bits are clear. */
  lemma {:induction false} ThenClear(g: Gen, h: Gen, m: nat, k: nat, j: nat, n: nat)
    requires Alike(g, h) && m >= Gap(g.ty) && Low(g, m) != Low(h, m)
    requires k >= 2 && n == m + k * Deg(g.ty) + j * Gap(g.ty)
    ensures !Low(g, n) && !Low(h, n)
    decreases k
  {
    hide SameDraws, Low, Deg, Sep, Gap;
    var d, q := Deg(g.ty), Gap(g.ty);
    OneMore(j, q);
    OneMore(k - 1, d);
    if k == 2 {
      DiffersOn(g, h, m, j, n - d - d);
      DiffersOn(g, h, m, j + 1, n - d - d + q);
    } else {
      ThenClear(g, h, m, k - 1, j, n - d);
      ThenClear(g, h, m, k - 1, j + 1, n - d + q);
    }
    LowBits(g, h, n);
  }

  /** So they never differ: one round per place of the gap later they would both be clear and still differ. */
  lemma SameLow(g: Gen, h: Gen, m: nat)
    requires Alike(g, h) && m >= Gap(g.ty)
    ensures Low(g, m) == Low(h, m)
  {
    hide SameDraws, Low, Deg, Sep;
    var d, q := Deg(g.ty), Gap(g.ty);
    if Low(g, m) != Low(h, m) {
      var n := m + q * d;
      assert q * d == d * q;
      DiffersOn(g, h, m, d, n);
      ThenClear(g, h, m, q, 0, n);
      assert false;
    }
  }

  lemma PlusCancels(a: Word, b: Word, c: Word)
    requires Plus(a, c) == Plus(b, c)
    ensures a == b
  {
    AddCancels(a, b, c);
  }

  lemma LateSum(g: Gen, h: Gen, k: nat)
    requires Alike(g, h) && k >= Gap(g.ty)
    ensures SumAt(g, k) == SumAt(h, k)
  {
    hide SameDraws, SumAt, Deg, Sep, Good;
    SameLow(g, h, k);
    Halves(g, h, k);
  }

  /** The numbers determine the sums; for the first few the recurrence is read backwards. */
  lemma SumFollows(g: Gen, h: Gen, k: nat)
    requires Alike(g, h)
    ensures SumAt(g, k) == SumAt(h, k)
  {
    hide SameDraws, SumAt, Deg, Sep, Plus, Good;
    var d, q := Deg(g.ty), Gap(g.ty);
    LateSum(g, h, k + q);
    LateSum(g, h, k + d);
    SumOfTwo(g, k + d);
    SumOfTwo(h, k + d);
    PlusCancels(SumAt(g, k), SumAt(h, k), SumAt(g, k + q));
  }

  /** Two generators of a type draw the same numbers for ever exactly when their tables look the same from their rear
      pointers, the lowest bits that are never shown included. */
  lemma SameNumbers(g: Gen, h: Gen)
    requires SameType(g, h)
    ensures SameDraws(g, h) <==> View(g) == View(h)
  {
    hide View, SumAt, Draw, Drawn, SameDraws;
    SameSums(g, h);
    if SameDraws(g, h) {
      forall k: nat
        ensures SumAt(g, k) == SumAt(h, k)
      {
        SumFollows(g, h, k);
      }
    } else if forall k: nat :: SumAt(g, k) == SumAt(h, k) {
      NumbersFollow(g, h);
      assert false;
    }
  }

  lemma NumbersFollow(g: Gen, h: Gen)
    requires SameType(g, h) && forall k: nat :: SumAt(g, k) == SumAt(h, k)
    ensures SameDraws(g, h)
  {
    hide SumAt, Draw, Drawn;
    forall k: nat
      ensures Draw(Drawn(g, k)).1 == Draw(Drawn(h, k)).1
    {
      NumberIs(g, k);
      NumberIs(h, k);
    }
  }

  /** setstate with the buffer in use, as a caller sees it: the numbers go on undisturbed exactly when the table looks
      the same from the place that was saved in the buffer as from where the rear pointer is. */
  lemma SetCurrentNumbers(w: World, rear: nat)
    requires Ok(w) && w.ty > 0 && rear < Deg(w.ty) && w.bufs[w.cur][0] == Tag(w.ty, rear)
    ensures Usable(w, w.cur) && GenOf(Apply(w, DoSet(w.cur))) == GenOf(w).(rear := rear)
    ensures SameDraws(GenOf(Apply(w, DoSet(w.cur))), GenOf(w)) <==>
            View(GenOf(w).(rear := rear)) == View(GenOf(w))
  {
    hide View, SameDraws;
    SetTakesTag(w, rear);
    SameNumbers(GenOf(w).(rear := rear), GenOf(w));
  }
}
