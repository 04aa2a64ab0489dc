/** Parsing decimal integers, os161/lib/libc/atoi.c, and what it has to do with printing them. Values are 32-bit
    words, negative numbers in two's complement. */
module Atoi {
  import opened Printf
  import opened Words

  predicate IsSpace(c: char) {
    c == ' ' || c == '\t'
  }

  predicate IsDigit(c: char) {
    '0' <= c <= '9'
  }

  function DigitOf(c: char): (d: nat)
    requires IsDigit(c)
    ensures d < 10
  {
    c as int - '0' as int
  }

  function Skip(s: string): string {
    if s != [] && IsSpace(s[0]) then Skip(s[1..]) else s
  }

  /** The digits at the start of `s` appended to `val`, in 32 bits. */
  function Value(s: string, val: Word): Word {
    if s == [] || !IsDigit(s[0]) then val else Value(s[1..], (val * 10 + DigitOf(s[0])) % U32)
  }

  function Negated(w: Word): Word {
    (U32 - w) % U32
  }

  function AtoiOf(s: string): Word {
    var t := Skip(s);
    if t != [] && t[0] == '-' then Negated(Value(t[1..], 0))
    else if t != [] && t[0] == '+' then Value(t[1..], 0)
    else Value(t, 0)
  }

  /** atoi. */
  method Parse(s: string) returns (r: Word)
    ensures r == AtoiOf(s)
  {
    var val: Word := 0;
    var neg := false;
    var i := 0;
    assert s[0..] == s;
    while i < |s| && (s[i] == ' ' || s[i] == '\t')
      invariant 0 <= i <= |s| && Skip(s) == Skip(s[i..])
    {
      assert s[i..][1..] == s[i + 1..];
      i := i + 1;
    }
    ghost var t := s[i..];
    assert Skip(s) == t;
    if i < |s| && s[i] == '-' {
      neg := true;
      i := i + 1;
    } else if i < |s| && s[i] == '+' {
      i := i + 1;
    }
    ghost var start := s[i..];
    while i < |s|
      invariant 0 <= i <= |s| && Value(start, 0) == Value(s[i..], val)
    {
      if !('0' <= s[i] <= '9') {
        break;
      }
      assert s[i..][1..] == s[i + 1..];
      val := (val * 10 + (s[i] as int - '0' as int)) % U32;
      i := i + 1;
    }
    r := if neg then (U32 - val) % U32 else val;
  }

  // ---------------------------------------------------------------- values of texts

  ghost predicate AllDigits(s: string) {
    forall k :: 0 <= k < |s| ==> IsDigit(s[k])
  }

  lemma {:induction false} ValueThen(a: string, b: string, val: Word)
    requires AllDigits(a)
    ensures Value(a + b, val) == Value(b, Value(a, val))
  {
    if a == [] {
      assert a + b == b;
    } else {
      assert (a + b)[1..] == a[1..] + b;
      ValueThen(a[1..], b, (val * 10 + DigitOf(a[0])) % U32);
    }
  }

  lemma {:induction false} DecimalDigits(n: nat)
    ensures AllDigits(Digits(n, 10))
  {
    if n >= 10 {
      DecimalDigits(n / 10);
    }
  }

  lemma DigitBack(d: nat)
    requires d < 10
    ensures IsDigit(DigitChar(d)) && DigitOf(DigitChar(d)) == d
  {
  }

  lemma ValueOne(c: char, val: Word)
    requires IsDigit(c)
    ensures Value([c], val) == (val * 10 + DigitOf(c)) % U32
  {
    assert [c][1..] == [];
  }

  lemma {:induction false} ValueOfDigits(n: nat)
    ensures Value(Digits(n, 10), 0) == n % U32
  {
    if n < 10 {
      DigitBack(n);
      assert Digits(n, 10)[1..] == [];
    } else {
      hide Value, DigitChar;
      var a, c := Digits(n / 10, 10), DigitChar(n % 10);
      DecimalDigits(n / 10);
      ValueOfDigits(n / 10);
      ValueThen(a, [c], 0);
      DigitBack(n % 10);
      ValueOne(c, n / 10 % U32);
      AppendMod(n);
    }
  }

  lemma ValueOfWord(n: Word)
    ensures Value(Digits(n, 10), 0) == n
  {
    hide Value, Digits;
    ValueOfDigits(n);
  }

  lemma AppendMod(n: nat)
    ensures (n / 10 % U32 * 10 + n % 10) % U32 == n % U32
  {
    var m := n / 10;
    var q, r := m / U32, m % U32;
    assert n == U32 * (10 * q) + (10 * r + n % 10);
    AddMultiple(10 * r + n % 10, 10 * q);
  }

  lemma {:induction false} LeadingZeros(p: nat, rest: string)
    ensures Value(Fill('0', p) + rest, 0) == Value(rest, 0)
  {
    if p == 0 {
      assert Fill('0', 0) + rest == rest;
    } else {
      assert (Fill('0', p) + rest)[1..] == Fill('0', p - 1) + rest;
      LeadingZeros(p - 1, rest);
    }
  }

  /** Zeros on the right multiply by a power of ten. */
  lemma {:induction false} TrailingZeros(p: nat, val: Word)
    ensures Value(Fill('0', p), val) == val * Pow(10, p) % U32
  {
    if p > 0 {
      assert Fill('0', p)[1..] == Fill('0', p - 1);
      var next := val * 10 % U32;
      TrailingZeros(p - 1, next);
      TimesMod(val * 10, Pow(10, p - 1));
      assert val * 10 * Pow(10, p - 1) == val * Pow(10, p);
    }
  }

  lemma TimesMod(a: nat, b: nat)
    ensures (a % U32) * b % U32 == a * b % U32
  {
    var q, r := a / U32, a % U32;
    assert a * b == U32 * (q * b) + r * b;
    AddMultiple(r * b, q * b);
  }

  lemma AddMultiple(x: nat, q: nat)
    ensures (U32 * q + x) % U32 == x % U32
  {
  }

  lemma {:induction false} SkipBlanks(blanks: string, rest: string)
    requires (forall k :: 0 <= k < |blanks| ==> IsSpace(blanks[k])) && (rest != [] ==> !IsSpace(rest[0]))
    ensures Skip(blanks + rest) == rest
  {
    if blanks == [] {
      assert blanks + rest == rest;
    } else {
      assert (blanks + rest)[1..] == blanks[1..] + rest;
      SkipBlanks(blanks[1..], rest);
    }
  }

  lemma SkipSpaces(p: nat, rest: string)
    requires rest != [] ==> !IsSpace(rest[0])
    ensures Skip(Fill(' ', p) + rest) == rest
  {
    SkipBlanks(Fill(' ', p), rest);
  }

  /** What atoi is for: blanks, an optional sign, the digits of any number and then anything that is not a digit
      give that number, modulo 2^32. */
  lemma AtoiMeans(blanks: string, sign: string, n: nat, rest: string)
    requires forall k :: 0 <= k < |blanks| ==> blanks[k] == ' ' || blanks[k] == '\t'
    requires sign in {"", "+", "-"} && (rest != [] ==> !('0' <= rest[0] <= '9'))
    ensures AtoiOf(blanks + (sign + (Digits(n, 10) + rest))) == (if sign == "-" then U32 - n % U32 else n % U32) % U32
  {
    hide Digits;
    var t := Digits(n, 10) + rest;
    DecimalDigits(n);
    assert t[0] == Digits(n, 10)[0] && IsDigit(t[0]);
    ValueThen(Digits(n, 10), rest, 0);
    ValueOfDigits(n);
    SkipBlanks(blanks, sign + t);
    if sign == "" {
      assert sign + t == t;
    } else {
      assert (sign + t)[1..] == t;
    }
  }

  // ---------------------------------------------------------------- odd factors lose nothing modulo a power of two

  function Two(k: nat): nat {
    if k == 0 then 1 else 2 * Two(k - 1)
  }

  lemma Parity(n: nat, h: nat, z: nat)
    requires n * (2 * h + 1) == 2 * z
    ensures n % 2 == 0 && n / 2 * (2 * h + 1) == z
  {
    var u := z - n * h;
    assert n * (2 * h + 1) == 2 * (n * h) + n;
    assert n == 2 * u;
    assert 2 * u * (2 * h + 1) == 2 * (u * (2 * h + 1));
  }

  lemma TwoStep(k: nat)
    ensures if k == 0 then Two(k) == 1 else Two(k) == 2 * Two(k - 1)
  {
  }

  lemma Regroup(a: nat, b: nat)
    ensures (2 * a) * b == 2 * (a * b)
  {
  }

  lemma {:induction false} OddCancel(k: nat, n: nat, h: nat, q: nat) returns (r: nat)
    requires n * (2 * h + 1) == Two(k) * q
    ensures n == Two(k) * r
  {
    hide Two;
    TwoStep(k);
    if k == 0 {
      r := n;
    } else {
      Regroup(Two(k - 1), q);
      Parity(n, h, Two(k - 1) * q);
      r := OddCancel(k - 1, n / 2, h, q);
      Regroup(Two(k - 1), r);
    }
  }

  /** A power of ten less one is odd. */
  lemma PowTenOdd(p: nat) returns (h: nat)
    requires p >= 1
    ensures Pow(10, p) == 2 * h + 2
  {
    PowPositive(p - 1);
    h := 5 * Pow(10, p - 1) - 1;
  }

  lemma {:induction false} PowPositive(p: nat)
    ensures Pow(10, p) >= 1
  {
    if p > 0 {
      PowPositive(p - 1);
    }
  }

  /** Appending zeros changes every value but 0, even in 32 bits. */
  lemma ZerosChange(n: Word, p: nat)
    requires p >= 1
    ensures n * Pow(10, p) % U32 == n <==> n == 0
  {
    hide Pow;
    var h := PowTenOdd(p);
    if n * Pow(10, p) % U32 == n {
      FixedIsZero(n, h);
    }
  }

  lemma FixedIsZero(n: Word, h: nat)
    requires n * (2 * h + 2) % U32 == n
    ensures n == 0
  {
    hide Two;
    OneLess(n, 2 * h + 2);
    TwoTo32();
    FixedQuotient(n, n * (2 * h + 2));
    var r := OddCancel(32, n, h, n * (2 * h + 2) / U32);
  }

  lemma OneLess(n: nat, t: nat)
    ensures n * (t - 1) == n * t - n
  {
  }

  lemma TwoTo32()
    ensures Two(32) == U32
  {
    EightMore(0);
    EightMore(8);
    EightMore(16);
    EightMore(24);
  }

  lemma EightMore(k: nat)
    ensures Two(k + 8) == 256 * Two(k)
  {
    assert Two(k + 2) == 4 * Two(k) && Two(k + 4) == 4 * Two(k + 2);
    assert Two(k + 6) == 4 * Two(k + 4) && Two(k + 8) == 4 * Two(k + 6);
  }

  lemma FixedQuotient(n: Word, x: nat)
    requires x % U32 == n
    ensures x - n == U32 * (x / U32)
  {
  }
}
