/** Number and text formatting, os161/lib/libc/__printf.c and os161/lib/libc/snprintf.c. An int and a long are
    32 bits wide. */
module Printf {
  import opened Words

  /** What va_arg can fetch: a word for numbers and characters, a string, or a null pointer to one. */
  datatype Arg = Num(w: Word) | Text(s: string) | Null

  // ---------------------------------------------------------------- digits

  function DigitChar(d: nat): char
    requires d < 16
  {
    "0123456789abcdef"[d]
  }

  /** The number in the base, most significant digit first; 0 is "0". */
  function Digits(n: nat, base: nat): (s: string)
    requires 2 <= base <= 16
    ensures |s| >= 1
  {
    if n < base then [DigitChar(n)]
    else
      Shrinks(n, base);
      Digits(n / base, base) + [DigitChar(n % base)]
  }

  lemma Shrinks(n: nat, base: nat)
    requires base >= 2
    ensures n / base == 0 <==> n < base
    ensures n / base <= n && (n > 0 ==> n / base < n)
  {
    var q, r := n / base, n % base;
    assert n == base * q + r;
    if q > 0 {
      Product(q, 2, base);
      Product(base, 1, q);
    }
  }

  function Pow(b: nat, k: nat): nat {
    if k == 0 then 1 else b * Pow(b, k - 1)
  }

  lemma {:induction false} DigitsLength(n: nat, base: nat, k: nat)
    requires 2 <= base <= 16 && 1 <= k && n < Pow(base, k)
    ensures |Digits(n, base)| <= k
  {
    hide Pow, DigitChar, Digits;
    PowStep(base, k);
    OneDigit(n, base, "");
    Shrinks(n, base);
    if n >= base {
      Quotient(n, base, Pow(base, k - 1));
      DigitsLength(n / base, base, k - 1);
    }
  }

  lemma PowStep(b: nat, k: nat)
    requires k >= 1
    ensures Pow(b, k) == b * Pow(b, k - 1) && (k == 1 ==> Pow(b, k) == b)
  {
  }

  lemma Quotient(n: nat, b: nat, p: nat)
    requires b > 0 && n < b * p
    ensures n / b < p
  {
    if n / b >= p {
      Product(b, p, n / b);
    }
  }

  lemma Product(b: nat, x: nat, y: nat)
    requires x <= y
    ensures b * x <= b * y
  {
  }

  /** Eleven digits are enough for any word in the bases printf uses; 2^33 is 8^11. */
  lemma WordDigits(w: Word, base: nat)
    requires base in {8, 10, 16}
    ensures |Digits(w, base)| <= 11
  {
    assert Pow(8, 11) == 8 * 8 * 8 * 8 * 8 * 8 * 8 * 8 * 8 * 8 * 8 by {
      assert Pow(8, 11) == 8 * Pow(8, 10) && Pow(8, 10) == 8 * Pow(8, 9) && Pow(8, 9) == 8 * Pow(8, 8);
      assert Pow(8, 8) == 8 * Pow(8, 7) && Pow(8, 7) == 8 * Pow(8, 6) && Pow(8, 6) == 8 * Pow(8, 5);
      assert Pow(8, 5) == 8 * Pow(8, 4) && Pow(8, 4) == 8 * Pow(8, 3) && Pow(8, 3) == 512;
    }
    PowGrows(base, 11);
    DigitsLength(w, base, 11);
  }

  lemma {:induction false} PowGrows(b: nat, k: nat)
    requires b >= 8
    ensures Pow(b, k) >= Pow(8, k) >= 1
  {
    if k > 0 {
      PowGrows(b, k - 1);
      assert b * Pow(b, k - 1) >= 8 * Pow(b, k - 1);
    }
  }

  /** And all eleven are needed. */
  lemma OctalIsTight()
    ensures |Digits(0xffff_ffff, 8)| == 11
  {
    assert Digits(0xffff_ffff, 8) == Digits(0x1fff_ffff, 8) + [DigitChar(7)];
    assert Digits(0x1fff_ffff, 8) == Digits(0x3ff_ffff, 8) + [DigitChar(7)];
    assert Digits(0x3ff_ffff, 8) == Digits(0x7f_ffff, 8) + [DigitChar(7)];
    assert Digits(0x7f_ffff, 8) == Digits(0xf_ffff, 8) + [DigitChar(7)];
    assert Digits(0xf_ffff, 8) == Digits(0x1_ffff, 8) + [DigitChar(7)];
    assert Digits(0x1_ffff, 8) == Digits(0x3fff, 8) + [DigitChar(7)];
    assert Digits(0x3fff, 8) == Digits(0x7ff, 8) + [DigitChar(7)];
    assert Digits(0x7ff, 8) == Digits(0xff, 8) + [DigitChar(7)];
    assert Digits(0xff, 8) == Digits(0x1f, 8) + [DigitChar(7)];
    assert Digits(0x1f, 8) == Digits(3, 8) + [DigitChar(7)];
  }

  lemma OneDigit(n: nat, base: nat, rest: string)
    requires 2 <= base <= 16
    ensures n / base > 0 ==> Digits(n, base) + rest == Digits(n / base, base) + ([DigitChar(n % base)] + rest)
    ensures n / base > 0 ==> |Digits(n, base)| == |Digits(n / base, base)| + 1 && n / base < n
    ensures n / base == 0 ==> Digits(n, base) == [DigitChar(n % base)]
  {
    Shrinks(n, base);
    hide DigitChar;
    if n < base {
      SmallMod(n, base);
    } else {
      assert Digits(n, base) == Digits(n / base, base) + [DigitChar(n % base)];
    }
  }

  lemma SmallMod(n: nat, base: nat)
    requires n < base
    ensures n % base == n
  {
  }

  function CharDigit(c: char): nat {
    if '0' <= c <= '9' then c as int - '0' as int else if 'a' <= c <= 'f' then c as int - 'a' as int + 10 else 0
  }

  /** What a text stands for in a base. */
  function Positional(s: string, base: nat): nat {
    if s == [] then 0 else Positional(s[..|s| - 1], base) * base + CharDigit(s[|s| - 1])
  }

  /** The digits are the number in the base, without leading zeros. */
  lemma {:induction false} DigitsMean(n: nat, base: nat)
    requires 2 <= base <= 16
    ensures Positional(Digits(n, base), base) == n
    ensures n > 0 ==> Digits(n, base)[0] != '0'
  {
    hide DigitChar, CharDigit;
    var s := Digits(n, base);
    if n < base {
      DigitCharBack(n);
      assert s[..0] == [];
    } else {
      Shrinks(n, base);
      DigitsMean(n / base, base);
      DigitCharBack(n % base);
      assert s[..|s| - 1] == Digits(n / base, base);
      Recompose(n, base);
    }
  }

  lemma DigitCharBack(d: nat)
    requires d < 16
    ensures CharDigit(DigitChar(d)) == d && (d > 0 ==> DigitChar(d) != '0')
  {
  }

  lemma Recompose(n: nat, base: nat)
    requires base > 0
    ensures n / base * base + n % base == n
  {
  }

  // ---------------------------------------------------------------- formats

  /** What printf remembers between the characters of a format. */
  datatype Pf = Pf(inPct: bool, spacing: nat, rightspc: bool, fillchar: char, altformat: bool)

  const START: Pf := Pf(false, 0, false, ' ', false)

  predicate IsModifier(ch: char) {
    ch in "#-ql0123456789"
  }

  predicate IsInteger(ch: char) {
    ch in "doupx"
  }

  /** __pf_modifier. The sizes `l` and `q` make no difference here. */
  function Modified(pf: Pf, ch: char): Pf
    requires IsModifier(ch)
  {
    if ch == '#' then pf.(altformat := true)
    else if ch == '-' then pf.(rightspc := true)
    else if ch == 'l' || ch == 'q' then pf
    else if ch == '0' && pf.spacing == 0 then pf.(fillchar := '0')
    else pf.(spacing := pf.spacing * 10 + (ch as int - '0' as int))
  }

  function Fill(ch: char, n: nat): (s: string)
    ensures |s| == n && forall k :: 0 <= k < n ==> s[k] == ch
  {
    seq(n, _ => ch)
  }

  /** The text of a field: spaces come before the prefix and zeros after it, unless the padding is on the right. */
  function Padded(pf: Pf, prefix: string, stuff: string): string {
    var len := |prefix| + |stuff|;
    var spc := if pf.spacing > len then pf.spacing - len else 0;
    if pf.rightspc then prefix + stuff + Fill(pf.fillchar, spc)
    else if pf.fillchar != '0' then Fill(pf.fillchar, spc) + prefix + stuff
    else prefix + Fill(pf.fillchar, spc) + stuff
  }

  /** Printing the parts one after the other. */
  lemma PaddedIs(pf: Pf, before: string, prefix: string, prefix2: string, stuff: string, spc: nat)
    requires var len := |prefix| + |prefix2| + |stuff|;
             spc == if pf.spacing > len then pf.spacing - len else 0
    ensures var fill := Fill(pf.fillchar, spc);
            before + Padded(pf, prefix + prefix2, stuff) ==
            if spc == 0 then before + prefix + prefix2 + stuff
            else if pf.rightspc then before + prefix + prefix2 + stuff + fill
            else if pf.fillchar != '0' then before + fill + prefix + prefix2 + stuff
            else before + prefix + prefix2 + fill + stuff
  {
    var fill := Fill(pf.fillchar, spc);
    if spc == 0 {
      assert fill == "";
      assert before + prefix + prefix2 + stuff == before + (prefix + prefix2 + stuff);
    } else if pf.rightspc {
      assert before + prefix + prefix2 + stuff + fill == before + (prefix + prefix2 + stuff + fill);
    } else if pf.fillchar != '0' {
      assert before + fill + prefix + prefix2 + stuff == before + (fill + (prefix + prefix2) + stuff);
    } else {
      assert before + prefix + prefix2 + fill + stuff == before + (prefix + prefix2 + fill + stuff);
    }
  }

  function BaseOf(ch: char): (b: nat)
    ensures b in {8, 10, 16}
  {
    if ch == 'd' || ch == 'u' then 10 else if ch == 'o' then 8 else 16
  }

  /** The signed integer with this bit pattern. */
  function Signed(w: Word): int {
    if w >= 0x8000_0000 then w - U32 else w
  }

  predicate Negative(ch: char, w: Word) {
    ch == 'd' && w >= 0x8000_0000
  }

  /** The magnitude printed: two's-complement negation of a negative number. */
  function Magnitude(ch: char, w: Word): Word {
    if Negative(ch, w) then U32 - w else w
  }

  function BasePrefix(pf: Pf, ch: char): string {
    if (pf.altformat || ch == 'p') && BaseOf(ch) == 16 then "0x"
    else if pf.altformat && BaseOf(ch) == 8 then "0"
    else ""
  }

  function IntegerField(pf: Pf, ch: char, w: Word): string {
    Padded(pf, (if Negative(ch, w) then "-" else "") + BasePrefix(pf, ch), Digits(Magnitude(ch, w), BaseOf(ch)))
  }

  /** A character as a C string: a NUL is the empty string. */
  function CharText(w: Word): string {
    if w % 256 == 0 then "" else [(w % 256) as char]
  }

  /** Whether the next argument is of the kind the character asks for. */
  predicate Wants(pf: Pf, ch: char, args: seq<Arg>) {
    if !pf.inPct || IsModifier(ch) then true
    else if IsInteger(ch) || ch == 'c' then args != [] && args[0].Num?
    else if ch == 's' then args != [] && !args[0].Num?
    else true
  }

  /** One character of the format: the state after it, the arguments left and the text printed. */
  function Sent(pf: Pf, ch: char, args: seq<Arg>): (Pf, seq<Arg>, string)
    requires Wants(pf, ch, args)
  {
    if !pf.inPct && ch != '%' then (pf, args, [ch])
    else if !pf.inPct then (pf.(inPct := true), args, "")
    else if IsModifier(ch) then (Modified(pf, ch), args, "")
    else if IsInteger(ch) then (START, args[1..], IntegerField(pf, ch, args[0].w))
    else if ch == 's' then (START, args[1..], Padded(pf, "", if args[0].Text? then args[0].s else "(null)"))
    else if ch == 'c' then (START, args[1..], Padded(pf, "", CharText(args[0].w)))
    else (START, args, Padded(pf, "", [ch]))
  }

  ghost predicate Matches(pf: Pf, fmt: string, args: seq<Arg>)
    decreases |fmt|
  {
    fmt == [] || (Wants(pf, fmt[0], args) && Matches(Sent(pf, fmt[0], args).0, fmt[1..], Sent(pf, fmt[0], args).1))
  }

  /** The text of a whole format. */
  ghost function Format(pf: Pf, fmt: string, args: seq<Arg>): string
    requires Matches(pf, fmt, args)
    decreases |fmt|
  {
    if fmt == [] then "" else
      var r := Sent(pf, fmt[0], args);
      r.2 + Format(r.0, fmt[1..], r.1)
  }

  lemma FormatStep(pf: Pf, fmt: string, args: seq<Arg>)
    requires fmt != [] && Matches(pf, fmt, args)
    ensures Wants(pf, fmt[0], args)
    ensures var r := Sent(pf, fmt[0], args);
            Matches(r.0, fmt[1..], r.1) && Format(pf, fmt, args) == r.2 + Format(r.0, fmt[1..], r.1)
  {
  }

  lemma FormatEnd(pf: Pf, args: seq<Arg>)
    ensures Matches(pf, [], args) && Format(pf, [], args) == ""
  {
  }

  // ---------------------------------------------------------------- the code

  function Min(a: nat, b: nat): nat {
    if a < b then a else b
  }

  /** The context of snprintf: characters past `buflen` are dropped. */
  class Snp {
    const buf: array<char>
    const buflen: nat
    var bufpos: nat
    ghost var all: string           // everything sent so far
    ghost const orig: string        // the buffer before

    ghost predicate Valid()
      reads this, buf
    {
      && buflen <= buf.Length == |orig| && bufpos == Min(|all|, buflen) && buf[..bufpos] == all[..bufpos]
      && forall k :: bufpos <= k < buf.Length ==> buf[k] == orig[k]
    }

    constructor (b: array<char>, len: nat)
      requires len <= b.Length
      ensures Valid() && buf == b && all == "" && orig == b[..] && buflen == if len == 0 then 0 else len - 1
    {
      buf, bufpos := b, 0;
      buflen := if len == 0 then 0 else len - 1;
      all, orig := "", b[..];
    }

    /** __snprintf_send. */
    method Send(data: string)
      requires Valid()
      modifies this, buf
      ensures Valid() && all == old(all) + data
    {
      var i := 0;
      ghost var before := all;
      while i < |data|
        invariant 0 <= i <= |data| && Valid() && all == before + data[..i]
      {
        if bufpos < buflen {
          buf[bufpos] := data[i];
          bufpos := bufpos + 1;
        }
        all := all + [data[i]];
        i := i + 1;
      }
    }
  }

  /** The printf state record; what is printed goes to an Snp. */
  class Printer {
    const snp: Snp
    var args: seq<Arg>
    var charcount: nat
    var inPct: bool
    var num: Word
    var sign: bool
    var spacing: nat
    var rightspc: bool
    var fillchar: char
    var base: nat
    var baseprefix: bool
    var altformat: bool

    ghost function V(): Pf
      reads this
    {
      Pf(inPct, spacing, rightspc, fillchar, altformat)
    }

    ghost predicate Valid()
      reads this, snp, snp.buf
    {
      snp.Valid() && charcount == |snp.all| && fillchar in {' ', '0'}
    }

    /** As it is between two characters of the format. */
    ghost predicate Ready()
      reads this, snp, snp.buf
    {
      Valid() && num == 0 && !sign && !baseprefix
    }

    constructor (s: Snp, a: seq<Arg>)
      requires s.Valid() && s.all == ""
      ensures Ready() && V() == START && snp == s && args == a
    {
      snp, args, charcount := s, a, 0;
      inPct, num, sign, spacing, rightspc := false, 0, false, 0, false;
      fillchar, base, baseprefix, altformat := ' ', 0, false, false;
    }

    /** __pf_print. */
    method Print(txt: string)
      requires Valid()
      modifies this`charcount, snp, snp.buf
      ensures Valid() && snp.all == old(snp.all) + txt
    {
      snp.Send(txt);
      charcount := charcount + |txt|;
    }

    /** __pf_endfield. */
    method EndField()
      requires Valid()
      modifies this
      ensures Ready() && V() == START && args == old(args) && charcount == old(charcount)
    {
      inPct, num, sign, spacing, rightspc := false, 0, false, 0, false;
      fillchar, base, baseprefix, altformat := ' ', 0, false, false;
    }

    /** __pf_modifier. */
    method Modifier(ch: char)
      requires Ready() && IsModifier(ch)
      modifies this`altformat, this`rightspc, this`spacing, this`fillchar
      ensures Ready() && V() == Modified(old(V()), ch)
    {
      if ch == '#' {
        altformat := true;
      } else if ch == '-' {
        rightspc := true;
      } else if ch == 'l' || ch == 'q' {
      } else if ch == '0' {
        if spacing > 0 {
          spacing := spacing * 10;
        } else {
          fillchar := '0';
        }
      } else {
        assert '0' < ch <= '9';
        spacing := spacing * 10 + (ch as int - '0' as int);
      }
    }

    /** __pf_getnum. */
    method GetNum(ch: char)
      requires Ready() && IsInteger(ch) && args != [] && args[0].Num?
      modifies this`args, this`num, this`sign
      ensures Valid() && args == old(args)[1..]
      ensures (if sign then -(num as int) else num as int) == if ch == 'd' then Signed(old(args)[0].w) else old(args)[0].w
      ensures sign ==> num > 0
    {
      var w := args[0].w;
      args := args[1..];
      if ch == 'd' && w >= 0x8000_0000 {
        sign := true;
        num := U32 - w;
      } else {
        num := w;
      }
    }

    /** __pf_setbase. */
    method SetBase(ch: char)
      requires Valid() && IsInteger(ch) && !baseprefix
      modifies this`base, this`baseprefix
      ensures Valid() && base == BaseOf(ch) && baseprefix == (altformat || ch == 'p')
    {
      if ch == 'd' || ch == 'u' {
        base := 10;
      } else if ch == 'x' || ch == 'p' {
        base := 16;
      } else {
        base := 8;
      }
      if altformat || ch == 'p' {
        baseprefix := true;
      }
    }

    /** __pf_fill. */
    method FillWith(spc: nat)
      requires Valid()
      modifies this`charcount, snp, snp.buf
      ensures Valid() && snp.all == old(snp.all) + Fill(fillchar, spc)
    {
      var i := 0;
      ghost var before := snp.all;
      while i < spc
        invariant 0 <= i <= spc && Valid() && snp.all == before + Fill(fillchar, i)
      {
        Print([fillchar]);
        assert Fill(fillchar, i) + [fillchar] == Fill(fillchar, i + 1);
        i := i + 1;
      }
    }

    /** __pf_printstuff. */
    method PrintStuff(prefix: string, prefix2: string, stuff: string)
      requires Valid()
      modifies this`charcount, snp, snp.buf
      ensures Valid() && snp.all == old(snp.all) + Padded(V(), prefix + prefix2, stuff)
    {
      hide Snp.Valid;
      ghost var before := snp.all;
      var len := |prefix| + |prefix2| + |stuff|;
      var spc := spacing;
      if spc > len {
        spc := spc - len;
      } else {
        spc := 0;
      }
      if spc > 0 && !rightspc && fillchar != '0' {
        FillWith(spc);
      }
      Print(prefix);
      Print(prefix2);
      if spc > 0 && !rightspc && fillchar == '0' {
        FillWith(spc);
      }
      Print(stuff);
      if spc > 0 && rightspc {
        FillWith(spc);
      }
      PaddedIs(V(), before, prefix, prefix2, stuff, spc);
    }

    /** The digit loop of __pf_printnum, in its twelve-byte buffer from the right. */
    method Convert(n: Word, b: nat) returns (text: string)
      requires b in {8, 10, 16}
      ensures text == Digits(n, b)
    {
      hide Digits, DigitChar;
      WordDigits(n, b);
      var buf := new char[12];
      var x: int := 11;
      buf[x] := 0 as char;
      x := x - 1;
      var xnum: nat := n;
      var more := true;
      while more
        invariant -1 <= x <= 10 && (more ==> x >= 0)
        invariant more ==> Digits(n, b) == Digits(xnum, b) + buf[x + 1..11] && |Digits(xnum, b)| <= x + 1
        invariant !more ==> Digits(n, b) == buf[x + 1..11] && xnum == 0
        decreases more, xnum
      {
        ghost var rest := buf[x + 1..11];
        buf[x] := DigitChar(xnum % b);
        assert buf[x..11] == [DigitChar(xnum % b)] + rest;
        OneDigit(xnum, b, rest);
        x := x - 1;
        xnum := xnum / b;
        more := xnum > 0;
      }
      x := x + 1;
      text := buf[x..11];
    }

    /** __pf_printnum. */
    method PrintNum()
      requires Valid() && base in {8, 10, 16}
      modifies this`charcount, snp, snp.buf
      ensures Valid() && snp.all == old(snp.all) +
              Padded(V(), (if sign then "-" else "") +
                          (if baseprefix && base == 16 then "0x" else if baseprefix && base == 8 then "0" else ""),
                     Digits(num, base))
    {
      var text := Convert(num, base);
      var bprefix := if baseprefix && base == 16 then "0x" else if baseprefix && base == 8 then "0" else "";
      var sprefix := if sign then "-" else "";
      PrintStuff(sprefix, bprefix, text);
    }

    /** __pf_send. */
    method Send(ch: char)
      requires Ready() && Wants(V(), ch, args)
      modifies this, snp, snp.buf
      ensures Ready() && (V(), args) == (Sent(old(V()), ch, old(args)).0, Sent(old(V()), ch, old(args)).1)
      ensures snp.all == old(snp.all) + Sent(old(V()), ch, old(args)).2
    {
      hide Padded, Digits, Modified, Snp.Valid;
      if !inPct && ch != '%' {
        Print([ch]);
      } else if !inPct {
        inPct := true;
      } else if IsModifier(ch) {
        Modifier(ch);
      } else if IsInteger(ch) {
        GetNum(ch);
        SetBase(ch);
        PrintNum();
        EndField();
      } else if ch == 's' {
        var str := if args[0].Text? then args[0].s else "(null)";
        args := args[1..];
        assert "" + "" == "";
        PrintStuff("", "", str);
        EndField();
      } else {
        var x := [ch];
        if ch == 'c' {
          x := CharText(args[0].w);
          args := args[1..];
        }
        assert "" + "" == "";
        PrintStuff("", "", x);
        EndField();
      }
    }

    /** __vprintf. */
    method Vprintf(format: string) returns (chars: nat)
      requires Ready() && V() == START && Matches(START, format, args) && snp.all == ""
      modifies this, snp, snp.buf
      ensures Valid() && snp.all == old(Format(START, format, args)) && chars == |snp.all|
    {
      hide Format, Matches, Sent, Snp.Valid;
      ghost var text := Format(START, format, args);
      var i := 0;
      assert format[0..] == format;
      while i < |format|
        invariant 0 <= i <= |format| && Ready() && Matches(V(), format[i..], args)
        invariant text == snp.all + Format(V(), format[i..], args)
      {
        FormatStep(V(), format[i..], args);
        assert format[i..][1..] == format[i + 1..];
        ghost var before, r := snp.all, Sent(V(), format[i], args);
        Send(format[i]);
        i := i + 1;
        assert before + (r.2 + Format(V(), format[i..], args)) == snp.all + Format(V(), format[i..], args);
      }
      assert format[i..] == [];
      FormatEnd(V(), args);
      assert snp.all + "" == snp.all;
      chars := charcount;
    }
  }

  /** vsnprintf: the text cut to the buffer and ended by a NUL, nothing past it written, and the length of the
      whole text returned. */
  method Vsnprintf(buf: array<char>, len: nat, fmt: string, args: seq<Arg>) returns (chars: nat)
    requires len <= buf.Length && Matches(START, fmt, args)
    modifies buf
    ensures chars == |Format(START, fmt, args)|
    ensures len > 0 ==>
              var m := Min(chars, len - 1);
              && buf[..m] == Format(START, fmt, args)[..m] && buf[m] == 0 as char
              && forall k :: m < k < buf.Length ==> buf[k] == old(buf[k])
    ensures len == 0 ==> buf[..] == old(buf[..])
  {
    hide Matches, Format;
    var snp := new Snp(buf, len);
    var pf := new Printer(snp, args);
    chars := pf.Vprintf(fmt);
    if len > 0 {
      ghost var m := snp.bufpos;
      ghost var before := buf[..m];
      buf[snp.bufpos] := 0 as char;
      assert buf[..m] == before;
    }
  }
}
