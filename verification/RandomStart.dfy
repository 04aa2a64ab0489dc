/** The program starts with the generator that initstate would make with seed 1 and 128 bytes. */
module RandomStart {
  import opened Words
  import opened Random

  // ---------------------------------------------------------------- one round of draws

  /** One round of 31 draws with the rear pointer at 0 turns table `t` into `u`; this is what happens at place `j`. */
  predicate RoundAt(t: seq<Word>, u: seq<Word>, j: nat)
    requires |t| == |u| == 31 && j < 31
  {
    Adds(t[j], if j >= 6 then u[j - 3] else if j >= 3 then t[j - 3] else u[j + 28], u[j])
  }

  /** `z` is the sum in 32 bits. */
  predicate Adds(x: Word, y: Word, z: Word) {
    z == x + y || z + 0x1_0000_0000 == x + y
  }

  lemma AddsIsMod(x: Word, y: Word, z: Word)
    requires Adds(x, y, z)
    ensures z == (x + y) % U32
  {
  }

  predicate LowRounded(t: seq<Word>, u: seq<Word>) {
    && |t| == |u| == 31
    && RoundAt(t, u, 0) && RoundAt(t, u, 1) && RoundAt(t, u, 2) && RoundAt(t, u, 3) && RoundAt(t, u, 4)
    && RoundAt(t, u, 5) && RoundAt(t, u, 6) && RoundAt(t, u, 7) && RoundAt(t, u, 8) && RoundAt(t, u, 9)
    && RoundAt(t, u, 10) && RoundAt(t, u, 11) && RoundAt(t, u, 12) && RoundAt(t, u, 13) && RoundAt(t, u, 14)
  }

  predicate HighRounded(t: seq<Word>, u: seq<Word>) {
    && |t| == |u| == 31
    && RoundAt(t, u, 15) && RoundAt(t, u, 16) && RoundAt(t, u, 17) && RoundAt(t, u, 18) && RoundAt(t, u, 19)
    && RoundAt(t, u, 20) && RoundAt(t, u, 21) && RoundAt(t, u, 22) && RoundAt(t, u, 23) && RoundAt(t, u, 24)
    && RoundAt(t, u, 25) && RoundAt(t, u, 26) && RoundAt(t, u, 27) && RoundAt(t, u, 28) && RoundAt(t, u, 29)
    && RoundAt(t, u, 30)
  }

  predicate Rounded(t: seq<Word>, u: seq<Word>) {
    LowRounded(t, u) && HighRounded(t, u)
  }

  lemma EveryPlace(t: seq<Word>, u: seq<Word>, j: nat)
    requires Rounded(t, u) && j < 31
    ensures RoundAt(t, u, j)
  {
    hide RoundAt;
  }

  /** The table in the middle of a round: the front pointer has passed the first `k` places, starting at place 3. */
  function Midway(t: seq<Word>, u: seq<Word>, k: nat): (m: seq<Word>)
    requires |t| == |u| == 31
    ensures |m| == 31
    ensures forall j :: 0 <= j < 31 ==> m[j] == if 3 <= j < k + 3 || j + 28 < k then u[j] else t[j]
  {
    seq<Word>(31, j requires 0 <= j < 31 => if 3 <= j < k + 3 || j + 28 < k then u[j] else t[j])
  }

  lemma OneDraw(t: seq<Word>, u: seq<Word>, k: nat)
    requires Rounded(t, u) && k < 31
    ensures Draw(Gen(3, Midway(t, u, k), k)).0 == Gen(3, Midway(t, u, k + 1), if k == 30 then 0 else k + 1)
  {
    hide Rounded, Adds;
    RoundedSize(t, u);
    var f := if k < 28 then k + 3 else k - 28;
    EveryPlace(t, u, f);
    var m := Midway(t, u, k);
    assert m[f] == t[f];
    AddsIsMod(m[f], m[k], u[f]);
    assert With(m, f, u[f]) == Midway(t, u, k + 1);
  }

  lemma {:induction false} DrawsSoFar(t: seq<Word>, u: seq<Word>, k: nat)
    requires Rounded(t, u) && k <= 31
    ensures Drawn(Gen(3, t, 0), k) == Gen(3, Midway(t, u, k), if k == 31 then 0 else k)
  {
    hide Rounded, Draw;
    RoundedSize(t, u);
    if k == 0 {
      assert Midway(t, u, 0) == t;
    } else {
      DrawsSoFar(t, u, k - 1);
      OneDraw(t, u, k - 1);
    }
  }

  lemma {:induction false} DrawnMore(g: Gen, n: nat, k: nat)
    requires Good(g)
    ensures Drawn(g, n + k) == Drawn(Drawn(g, n), k)
  {
    hide Draw, Good;
    if k > 0 {
      DrawnMore(g, n, k - 1);
    }
  }

  lemma RoundDrawn(g: Gen, n: nat, t: seq<Word>, u: seq<Word>)
    requires Good(g) && Drawn(g, n) == Gen(3, t, 0) && Rounded(t, u)
    ensures Drawn(g, n + 31) == Gen(3, u, 0)
  {
    hide Rounded, Draw, Drawn;
    RoundedSize(t, u);
    DrawnMore(g, n, 31);
    DrawsSoFar(t, u, 31);
    assert Midway(t, u, 31) == u;
  }

  lemma RoundedSize(t: seq<Word>, u: seq<Word>)
    requires Rounded(t, u)
    ensures |t| == |u| == 31
  {
  }

  // ---------------------------------------------------------------- the ten rounds of the warm-up

  function Table0(): seq<Word> {
    [0x00000001, 0x41c67ea6, 0x967eb0e7, 0x2781e494, 0xc46b9b3d, 0xf94bdf32, 0x95fb7483, 0xd9e2b600,
     0x9cfbae39, 0xbf54bc7e, 0x0ff6d5df, 0x0abd322c, 0x31dff4f5, 0x237c228a, 0xaf1cf0fb, 0x7de14518,
     0xc487eb71, 0xe201dd56, 0xd2bfa1d7, 0xe2319ac4, 0xe3decdad, 0xe95678e2, 0x93728473, 0x500f9f30,
     0x284797a9, 0x2c67412e, 0x7566f4cf, 0x42877e5c, 0xb3590565, 0x4daa423a, 0xe4880eeb]
  }

  function Table1(): seq<Word> {
    [0x2d741988, 0x0168615b, 0xce7f4033, 0x2781e495, 0x063219e3, 0x8fca9019, 0xbd7d5918, 0xe014cfe3,
     0x2cc63e52, 0x7cd21596, 0xf00ba5c2, 0x3783707e, 0xaeb20a8b, 0x1387c84c, 0xe6a06179, 0x2c934fa3,
     0xd80fb3bd, 0xc8a23ecf, 0xff52f17a, 0xba414e81, 0xac810c7c, 0xe8a96a5c, 0x4db3d2f4, 0xfc90abac,
     0x10f10205, 0x7a1b1422, 0x71f7a07b, 0x53788061, 0x2d741987, 0xbfa1e2b5, 0x38008f4c]
  }

  function Table2(): seq<Word> {
    [0xa04ad592, 0x4de9bc17, 0xbd7074b4, 0x54f5fe1d, 0x079a7b3e, 0x5e49d04c, 0x12735735, 0xe7af4b21,
     0x8b100e9e, 0x8f456ccb, 0xd7baf0e3, 0xc2937f1c, 0x3df77756, 0xeb42b92f, 0xa933e095, 0x6a8ac6f9,
     0xc3526cec, 0x71d61f64, 0x69ddb873, 0x7d93bb6d, 0x1e572be0, 0x528722cf, 0xcb478e61, 0x1ae7d78c,
     0x637824d4, 0x4562a283, 0x8cdf7807, 0xb6f0a535, 0x72d6bc0a, 0x4c815abc, 0xeef13481]
  }

  function Table3(): seq<Word> {
    [0x64e31761, 0xe4f164f9, 0xc2ab247e, 0xf540d3af, 0x55843755, 0x1bba4500, 0x07b42ae4, 0x3d338276,
     0xa6ca539e, 0x96f997af, 0x14ee7359, 0x695dd2ba, 0xd4f10f05, 0x00312c88, 0x1291b34f, 0x3f7bd5fe,
     0xc3839974, 0x8467d2b3, 0xa9598e71, 0x411754e1, 0xa2befe93, 0xfbe0b140, 0x0c5ee342, 0xbda6d61f,
     0x5f58d614, 0x51c185c5, 0x4a864e26, 0x16497b49, 0xc49841cf, 0x9707a8e2, 0x053aafca]
  }

  function Table4(): seq<Word> {
    [0x18ff6f31, 0xac6c468b, 0xf000f7fc, 0x5a23eb10, 0x3a759c4e, 0xde65697e, 0x61d815f4, 0x77a91ec4,
     0x852fbd1c, 0xf8d1ada3, 0x8c97921d, 0xee8d8fd6, 0xcdc2bca8, 0x8cc8bea5, 0x011f4325, 0x0d3e92a6,
     0x504c5819, 0x858715d8, 0xb6982117, 0x9163acfa, 0x2846146b, 0xb278d257, 0x9dc2903c, 0xe5ecea8a,
     0x11d1a86b, 0xef841601, 0x307338b0, 0x281b23b4, 0xb41c57d0, 0xc77ae192, 0x2d55d37e]
  }

  function Table5(): seq<Word> {
    [0xb3fdc4b0, 0x7b57672b, 0x6922f82d, 0x73235a41, 0xe6e1e2d9, 0xce66617a, 0xd4fb7035, 0x5e8b019d,
     0x53961e96, 0xcdcd1dd8, 0xeb2293ba, 0x4223ae6c, 0x9b8fda80, 0x77eb525f, 0x4342f191, 0xa8ce6d26,
     0xc837aa78, 0xc8ca0769, 0x5f668e3d, 0x599b5772, 0xf1101bd4, 0x11df6094, 0xf75de7ae, 0xd6fd065e,
     0x23b108ff, 0xe6e1fdaf, 0x07703f0e, 0x4bcc2cb3, 0x9afe557f, 0xceeb20a0, 0x79220031]
  }

  function Table6(): seq<Word> {
    [0x72e13330, 0xf31008ae, 0xd1501185, 0x27211ef1, 0x62394a04, 0x378959a7, 0xfc1c8f26, 0xc0c44ba1,
     0x8b1f783d, 0xc9e9acfe, 0xabe6df5b, 0xcd4326a9, 0x6579877e, 0x23d231ba, 0x1086183a, 0x0e47f4a4,
     0xec09dc32, 0xd9501fa3, 0x6dae82e1, 0x45a533a4, 0xca603b77, 0x7f8de375, 0x3d031b52, 0xa15d41d5,
     0xa33eec74, 0x23e51901, 0xa8cd80e3, 0xef0b1927, 0xbee36e80, 0x77b8a183, 0x682d1958]
  }

  function Table7(): seq<Word> {
    [0xaa229541, 0xca65ea4f, 0x8ccda135, 0x9a025221, 0x554952b2, 0x08d96b2c, 0x961ee147, 0x160d9e53,
     0x93f8e369, 0x60088e45, 0xc1f47dae, 0x613c0a12, 0xc58215c3, 0xe5c6af68, 0x71c2224c, 0xd3ca0a67,
     0xd1d08b9a, 0x4b1241ef, 0x41788d48, 0x1775bf3e, 0x15727d66, 0xc10670bd, 0x5478da90, 0xb6cfbf3b,
     0x64455d31, 0x785df391, 0x5f9d401e, 0x53507658, 0x37416211, 0xd755e1a1, 0xbb7d8fb0]
  }

  function Table8(): seq<Word> {
    [0x74f918b5, 0x154ba6c6, 0xd5f8798b, 0x4424e762, 0x1faf3d01, 0x95a70c61, 0xda43c8a9, 0x35bcdb54,
     0x299fefca, 0x3a4c56ee, 0xf7b15902, 0x8adbf9dc, 0xffce6cb1, 0xdd78086a, 0xfc9e1c28, 0xd3987718,
     0xaf489404, 0x47b05e17, 0x15110460, 0xc6be5342, 0x5d22db7d, 0xd617751d, 0x1b372dd2, 0x13f29ab8,
     0x3a5cd24e, 0x93952163, 0x738fdad6, 0x8dad48a6, 0xcad68374, 0x4ae5bc77, 0x492ad856]
  }

  function Table9(): seq<Word> {
    [0xa483f32b, 0xa9409e19, 0x736ae9c9, 0xb91e0017, 0x34fae3c7, 0x6b9f85ec, 0x9361c8c0, 0x6ab7bf1b,
     0x953f75b6, 0xcdae1fae, 0x6269181d, 0x201b6f92, 0xcd7c8c5f, 0x3fe12087, 0x1cb98bba, 0xa1150377,
     0xef29b48b, 0x6469e9d1, 0xb62607d7, 0xb5e807cd, 0xc18cc54e, 0x8c3d7cf4, 0xd11f359f, 0xd57f6006,
     0xc69a4f42, 0x64b45702, 0x490f3adc, 0x544797e8, 0x2f8ada76, 0x93f4f753, 0x9d72703e]
  }

  function Table10(): seq<Word> {
    RANDTBL[1..]
  }

  /** What 1103515245 times the entry before, plus 12345, goes over 32 bits. */
  function Overflows(): seq<nat> {
    [0x00000000, 0x00000000, 0x10e659d4, 0x26aabf02, 0x0a26959a, 0x327779d0, 0x400d60b9, 0x26890703,
     0x37fb584e, 0x285581fc, 0x3128ba03, 0x041a0a1b, 0x02c25b5c, 0x0cd07fb1, 0x091e01a6, 0x2cfdff37,
     0x2057b556, 0x327ec01c, 0x3a118be0, 0x3625e8de, 0x3a1dcff4, 0x3a8c165a, 0x3bf3b50e, 0x25e24b5f,
     0x1491fc07, 0x0a596138, 0x0b689d03, 0x1e2a15c1, 0x1117f042, 0x2e14882a, 0x13f4644a]
  }

  predicate SownAt(t: seq<Word>, q: seq<nat>, i: nat)
    requires |t| == |q| == 31 && 0 < i < 31
  {
    t[i] as int + 0x1_0000_0000 * q[i] == 1103515245 * t[i - 1] as int + 12345
  }

  /** The table a seed of 1 gives. */
  predicate Sown(t: seq<Word>, q: seq<nat>) {
    && |t| == |q| == 31 && t[0] == 1
    && SownAt(t, q, 1) && SownAt(t, q, 2) && SownAt(t, q, 3) && SownAt(t, q, 4) && SownAt(t, q, 5)
    && SownAt(t, q, 6) && SownAt(t, q, 7) && SownAt(t, q, 8) && SownAt(t, q, 9) && SownAt(t, q, 10)
    && SownAt(t, q, 11) && SownAt(t, q, 12) && SownAt(t, q, 13) && SownAt(t, q, 14) && SownAt(t, q, 15)
    && SownAt(t, q, 16) && SownAt(t, q, 17) && SownAt(t, q, 18) && SownAt(t, q, 19) && SownAt(t, q, 20)
    && SownAt(t, q, 21) && SownAt(t, q, 22) && SownAt(t, q, 23) && SownAt(t, q, 24) && SownAt(t, q, 25)
    && SownAt(t, q, 26) && SownAt(t, q, 27) && SownAt(t, q, 28) && SownAt(t, q, 29) && SownAt(t, q, 30)
  }

  lemma SownEverywhere(t: seq<Word>, q: seq<nat>, i: nat)
    requires Sown(t, q) && 0 < i < 31
    ensures SownAt(t, q, i)
  {
    hide SownAt;
  }

  lemma FirstTable()
    ensures Sown(Table0(), Overflows())
  {
  }

  lemma SownIsLcg(x: Word, y: Word, q: nat)
    requires y as int + 0x1_0000_0000 * q == 1103515245 * x as int + 12345
    ensures y == Lcg(x)
  {
    Remainder(1103515245 * x + 12345, y, q);
  }

  lemma Remainder(n: nat, y: Word, q: nat)
    requires n == y + U32 * q
    ensures n % U32 == y
  {
    ModOf(U32, q, y);
  }

  lemma {:induction false} SownIsFilled(t: seq<Word>, q: seq<nat>, n: nat)
    requires Sown(t, q) && 1 <= n <= 31
    ensures Filled(1, n) == t[..n]
  {
    hide Sown, Lcg;
    SownSize(t, q);
    if n > 1 {
      SownIsFilled(t, q, n - 1);
      SownEverywhere(t, q, n - 1);
      SownIsLcg(t[n - 2], t[n - 1], q[n - 1]);
      assert t[..n] == t[..n - 1] + [t[n - 1]];
    }
  }

  lemma SownSize(t: seq<Word>, q: seq<nat>)
    requires Sown(t, q)
    ensures |t| == |q| == 31 && t[0] == 1
  {
  }

  lemma Low1()
    ensures LowRounded(Table0(), Table1())
  {
  }

  lemma High1()
    ensures HighRounded(Table0(), Table1())
  {
  }

  lemma Low2()
    ensures LowRounded(Table1(), Table2())
  {
  }

  lemma High2()
    ensures HighRounded(Table1(), Table2())
  {
  }

  lemma Low3()
    ensures LowRounded(Table2(), Table3())
  {
  }

  lemma High3()
    ensures HighRounded(Table2(), Table3())
  {
  }

  lemma Low4()
    ensures LowRounded(Table3(), Table4())
  {
  }

  lemma High4()
    ensures HighRounded(Table3(), Table4())
  {
  }

  lemma Low5()
    ensures LowRounded(Table4(), Table5())
  {
  }

  lemma High5()
    ensures HighRounded(Table4(), Table5())
  {
  }

  lemma Low6()
    ensures LowRounded(Table5(), Table6())
  {
  }

  lemma High6()
    ensures HighRounded(Table5(), Table6())
  {
  }

  lemma Low7()
    ensures LowRounded(Table6(), Table7())
  {
  }

  lemma High7()
    ensures HighRounded(Table6(), Table7())
  {
  }

  lemma Low8()
    ensures LowRounded(Table7(), Table8())
  {
  }

  lemma High8()
    ensures HighRounded(Table7(), Table8())
  {
  }

  lemma Low9()
    ensures LowRounded(Table8(), Table9())
  {
  }

  lemma High9()
    ensures HighRounded(Table8(), Table9())
  {
  }

  lemma Low10()
    ensures LowRounded(Table9(), Table10())
  {
  }

  lemma High10()
    ensures HighRounded(Table9(), Table10())
  {
  }

  lemma FirstHalf(g: Gen, n: nat)
    requires Good(g) && Drawn(g, n) == Gen(3, Table0(), 0)
    ensures Drawn(g, n + 155) == Gen(3, Table5(), 0)
  {
    hide Sown, LowRounded, HighRounded, Drawn, Draw, Filled, Overflows, Table0, Table1, Table2, Table3, Table4,
         Table5, Table6, Table7, Table8, Table9, Table10;
    Low1();
    High1();
    RoundDrawn(g, n, Table0(), Table1());
    Low2();
    High2();
    RoundDrawn(g, n + 31, Table1(), Table2());
    Low3();
    High3();
    RoundDrawn(g, n + 62, Table2(), Table3());
    Low4();
    High4();
    RoundDrawn(g, n + 93, Table3(), Table4());
    Low5();
    High5();
    RoundDrawn(g, n + 124, Table4(), Table5());
  }

  lemma SecondHalf(g: Gen, n: nat)
    requires Good(g) && Drawn(g, n) == Gen(3, Table5(), 0)
    ensures Drawn(g, n + 155) == Gen(3, Table10(), 0)
  {
    hide Sown, LowRounded, HighRounded, Drawn, Draw, Filled, Overflows, Table0, Table1, Table2, Table3, Table4,
         Table5, Table6, Table7, Table8, Table9, Table10;
    Low6();
    High6();
    RoundDrawn(g, n, Table5(), Table6());
    Low7();
    High7();
    RoundDrawn(g, n + 31, Table6(), Table7());
    Low8();
    High8();
    RoundDrawn(g, n + 62, Table7(), Table8());
    Low9();
    High9();
    RoundDrawn(g, n + 93, Table8(), Table9());
    Low10();
    High10();
    RoundDrawn(g, n + 124, Table9(), Table10());
  }

  /** The comment on the static variables holds: seed 1 and ten rounds of warm-up give the table and the pointers that
      the program starts with. */
  lemma StartIsSeeded()
    ensures Seeded(3, 1, []) == Gen(3, RANDTBL[1..], 0)
  {
    hide Sown, LowRounded, HighRounded, Drawn, Draw, Filled, Overflows, Table0, Table1, Table2, Table3, Table4,
         Table5, Table6, Table7, Table8, Table9;
    FirstTable();
    SownSize(Table0(), Overflows());
    SownIsFilled(Table0(), Overflows(), 31);
    assert Filled(1, 31) + [] == Table0();
    var g := Gen(3, Table0(), 0);
    NoDraw(g);
    FirstHalf(g, 0);
    SecondHalf(g, 155);
  }

  lemma NoDraw(g: Gen)
    requires Good(g)
    ensures Drawn(g, 0) == g
  {
  }

  /** So after initstate with seed 1 and a buffer of 128 bytes everything is as when the program starts. */
  lemma InitIsStart(w: World, b: nat)
    requires Ok(w) && b in w.bufs && |w.bufs[b]| == 32
    ensures var t := Apply(w, DoInit(1, b, 128));
            t.cur == b && t.bufs[b] == RANDTBL && t.ty == 3 && t.rear == 0
  {
    hide Draw, Drawn, Filled, Seeded;
    StartIsSeeded();
    assert Saved(w).bufs[b][32..] == [];
    assert RANDTBL == [3] + RANDTBL[1..];
  }

  // ---------------------------------------------------------------- the linear congruential generator

  /** With less than 32 bytes of state the next number is 1103515245 times the last one plus 12345, in 31 bits, and is
      all there is to the state; its lowest bit alternates. */
  lemma LinearDraw(x: Word, rest: seq<Word>)
    ensures var y := (1103515245 * x + 12345) % 0x8000_0000;
            Draw(Gen(0, [x] + rest, 0)) == (Gen(0, [y] + rest, 0), y) && y % 2 != x % 2
  {
    hide Lcg;
    var y := (1103515245 * x + 12345) % 0x8000_0000;
    LcgShort(x);
    assert With([x] + rest, 0, y) == [y] + rest;
  }

  lemma LcgShort(x: Word)
    ensures var y := (1103515245 * x + 12345) % 0x8000_0000;
            Lcg(x) % 0x8000_0000 == y && y % 2 != x % 2
  {
    Reduced(1103515245 * x + 12345);
  }

  lemma Reduced(n: nat)
    ensures n % U32 % 0x8000_0000 == n % 0x8000_0000 && n % 0x8000_0000 % 2 == n % 2
  {
  }
}
