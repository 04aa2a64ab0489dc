/** What each conversion of printf means: a numeral in a base, a text or a character, with the flags, the width and the
    size that a directive can have, anywhere in a format. */
module PrintfLaws {
  import opened Words
  import opened Printf
  import opened RoundTrip

  // ---------------------------------------------------------------- numerals

  /** The text is the number written in the base, with lower-case letters and without leading zeros. */
  ghost predicate Numeral(s: string, n: nat, base: nat) {
    && s != [] && (forall k :: 0 <= k < |s| ==> IsDigitOf(s[k], base))
    && Positional(s, base) == n && (|s| > 1 ==> s[0] != '0')
  }

  predicate IsDigitOf(c: char, base: nat) {
    ('0' <= c <= '9' || 'a' <= c <= 'f') && CharDigit(c) < base
  }

  lemma DigitCharIs(d: nat, base: nat)
    requires d < base <= 16
    ensures IsDigitOf(DigitChar(d), base)
  {
  }

  lemma {:induction false} DigitsNumeral(n: nat, base: nat)
    requires 2 <= base <= 16
    ensures Numeral(Digits(n, base), n, base)
  {
    hide DigitChar, IsDigitOf;
    DigitsMean(n, base);
    DigitCharIs(n % base, base);
    Shrinks(n, base);
    if n < base {
      SmallMod(n, base);
      assert Digits(n, base) == [DigitChar(n)];
    } else {
      DigitsNumeral(n / base, base);
      assert Digits(n, base) == Digits(n / base, base) + [DigitChar(n % base)];
    }
  }

  /** No other text is. */
  lemma {:induction false} NumeralUnique(s: string, t: string, n: nat, base: nat)
    requires 2 <= base <= 16 && Numeral(s, n, base) && Numeral(t, n, base)
    ensures s == t
    decreases |s|
  {
    hide IsDigitOf, CharDigit;
    NumeralSplits(s, n, base);
    NumeralSplits(t, n, base);
    if n >= base {
      NumeralUnique(s[..|s| - 1], t[..|t| - 1], n / base, base);
    }
    SameDigit(s[|s| - 1], t[|t| - 1], base);
    assert s == s[..|s| - 1] + [s[|s| - 1]] && t == t[..|t| - 1] + [t[|t| - 1]];
  }

  lemma SameDigit(c: char, d: char, base: nat)
    requires IsDigitOf(c, base) && IsDigitOf(d, base) && CharDigit(c) == CharDigit(d)
    ensures c == d
  {
  }

  lemma NumeralSplits(s: string, n: nat, base: nat)
    requires 2 <= base <= 16 && Numeral(s, n, base)
    ensures IsDigitOf(s[|s| - 1], base) && CharDigit(s[|s| - 1]) == n % base
    ensures if n < base then s[..|s| - 1] == [] else Numeral(s[..|s| - 1], n / base, base)
  {
    hide CharDigit, IsDigitOf;
    var front, d := s[..|s| - 1], CharDigit(s[|s| - 1]);
    assert IsDigitOf(s[|s| - 1], base);
    DigitBelow(s[|s| - 1], base);
    Divides(Positional(front, base), d, base);
    Shrinks(n, base);
    if front != [] {
      FirstCounts(front, base);
    }
  }

  lemma DigitBelow(c: char, base: nat)
    requires IsDigitOf(c, base)
    ensures CharDigit(c) < base && (c != '0' ==> CharDigit(c) > 0)
  {
  }

  lemma Divides(q: nat, d: nat, base: nat)
    requires d < base
    ensures (q * base + d) / base == q && (q * base + d) % base == d
  {
    var n := q * base + d;
    assert n == base * (n / base) + n % base;
    Between(q, n / base, d, n % base, base);
  }

  lemma Between(q: int, p: int, d: nat, r: nat, base: nat)
    requires q * base + d == p * base + r && d < base && r < base
    ensures q == p && d == r
  {
    if q > p {
      Scaled(p, q - p, base);
    } else if q < p {
      Scaled(q, p - q, base);
    }
  }

  lemma Scaled(p: int, e: nat, base: nat)
    ensures (p + e) * base == p * base + e * base && (e >= 1 ==> e * base >= base)
  {
    if e >= 1 {
      assert e * base == (e - 1) * base + base && (e - 1) * base >= 0;
    }
  }

  lemma {:induction false} FirstCounts(s: string, base: nat)
    requires s != [] && 2 <= base && IsDigitOf(s[0], base) && s[0] != '0'
    ensures Positional(s, base) > 0
  {
    hide CharDigit, IsDigitOf;
    DigitBelow(s[0], base);
    if |s| == 1 {
      assert s[..0] == [];
    } else {
      FirstCounts(s[..|s| - 1], base);
      assert Positional(s[..|s| - 1], base) * base > 0;
    }
  }

  // ---------------------------------------------------------------- directives

  /** A directive: flags, width, size and conversion. */
  datatype Directive = Directive(alt: bool, left: bool, zero: bool, width: nat, size: string, ch: char)

  ghost predicate Proper(d: Directive) {
    !IsModifier(d.ch) && forall k :: 0 <= k < |d.size| ==> d.size[k] == 'l' || d.size[k] == 'q'
  }

  function Spelled(d: Directive): string {
    "%" + ((if d.alt then "#" else "") + ((if d.left then "-" else "") + ((if d.zero then "0" else "") +
    ((if d.width == 0 then "" else Digits(d.width, 10)) + (d.size + [d.ch])))))
  }

  function Asked(d: Directive): Pf {
    Pf(true, d.width, d.left, if d.zero then '0' else ' ', d.alt)
  }

  lemma {:induction false} SizesIgnored(pf: Pf, size: string)
    requires forall k :: 0 <= k < |size| ==> size[k] == 'l' || size[k] == 'q'
    ensures forall k :: 0 <= k < |size| ==> IsModifier(size[k])
    ensures Mods(pf, size) == pf
    decreases |size|
  {
    if size != [] {
      SizesIgnored(pf, size[1..]);
    }
  }

  /** The conversion character ends the directive. */
  lemma Ends(pf: Pf, ch: char, rest: string, args: seq<Arg>)
    requires pf.inPct && !IsModifier(ch) && Wants(pf, ch, args)
    requires Matches(START, rest, Sent(pf, ch, args).1)
    ensures Matches(pf, [ch] + rest, args)
    ensures Format(pf, [ch] + rest, args) == Sent(pf, ch, args).2 + Format(START, rest, Sent(pf, ch, args).1)
  {
    hide IntegerField, Padded, IsModifier, IsInteger;
    assert ([ch] + rest)[1..] == rest && Sent(pf, ch, args).0 == START;
  }

  lemma OneFlag(pf: Pf, on: bool, c: char, rest: string, args: seq<Arg>)
    requires pf.inPct && c in "#-0" && pf.spacing == 0
    requires Matches(if on then Modified(pf, c) else pf, rest, args)
    ensures var text := (if on then [c] else "") + rest;
            Matches(pf, text, args) && Format(pf, text, args) == Format(if on then Modified(pf, c) else pf, rest, args)
  {
    if on {
      assert [c][1..] == [] && Mods(pf, [c]) == Modified(pf, c);
      FormatMods(pf, [c], rest, args);
    } else {
      assert "" + rest == rest;
    }
  }

  lemma OneWidth(pf: Pf, width: nat, rest: string, args: seq<Arg>)
    requires pf.inPct && pf.spacing == 0 && Matches(pf.(spacing := width), rest, args)
    ensures var text := (if width == 0 then "" else Digits(width, 10)) + rest;
            Matches(pf, text, args) && Format(pf, text, args) == Format(pf.(spacing := width), rest, args)
  {
    hide Digits, Modified, IsModifier, Format, Matches;
    if width == 0 {
      assert pf == pf.(spacing := 0) && "" + rest == rest;
    } else {
      WidthIsRead(pf, width);
      FormatMods(pf, Digits(width, 10), rest, args);
    }
  }

  /** A directive with its flags, width and size is one conversion under them, and the rest of the format goes on as from
      the start. */
  lemma DirectivePrints(d: Directive, rest: string, args: seq<Arg>)
    requires Proper(d) && Wants(Asked(d), d.ch, args) && Matches(START, rest, Sent(Asked(d), d.ch, args).1)
    ensures Matches(START, Spelled(d) + rest, args)
    ensures var r := Sent(Asked(d), d.ch, args);
            Format(START, Spelled(d) + rest, args) == r.2 + Format(START, rest, r.1)
  {
    hide Sent, Wants, Format, Matches, Digits, IsModifier, Mods;
    var p5 := Asked(d);
    var p4 := p5.(spacing := 0);
    var p3 := p4.(fillchar := ' ');
    var p2 := p3.(rightspc := false);
    var p1 := p2.(altformat := false);
    var t5 := [d.ch] + rest;
    var t4 := d.size + t5;
    var t3 := (if d.width == 0 then "" else Digits(d.width, 10)) + t4;
    var t2 := (if d.zero then "0" else "") + t3;
    var t1 := (if d.left then "-" else "") + t2;
    var t0 := (if d.alt then "#" else "") + t1;
    Ends(p5, d.ch, rest, args);
    SizesIgnored(p5, d.size);
    FormatMods(p5, d.size, t5, args);
    OneWidth(p4, d.width, t4, args);
    FlagModifiers(p1, p2, p3);
    OneFlag(p3, d.zero, '0', t3, args);
    OneFlag(p2, d.left, '-', t2, args);
    OneFlag(p1, d.alt, '#', t1, args);
    Percented(t0, args);
    SpelledRest(d, rest);
  }

  lemma FlagModifiers(p1: Pf, p2: Pf, p3: Pf)
    requires p3.spacing == 0
    ensures IsModifier('0') && IsModifier('-') && IsModifier('#')
    ensures Modified(p3, '0') == p3.(fillchar := '0')
    ensures Modified(p2, '-') == p2.(rightspc := true) && Modified(p1, '#') == p1.(altformat := true)
  {
  }

  lemma Percented(t: string, args: seq<Arg>)
    requires Matches(Pf(true, 0, false, ' ', false), t, args)
    ensures Matches(START, "%" + t, args)
    ensures Format(START, "%" + t, args) == Format(Pf(true, 0, false, ' ', false), t, args)
  {
    assert ("%" + t)[1..] == t;
    assert Sent(START, '%', args) == (Pf(true, 0, false, ' ', false), args, "");
  }

  lemma SpelledRest(d: Directive, rest: string)
    ensures Spelled(d) + rest == "%" + ((if d.alt then "#" else "") + ((if d.left then "-" else "") +
            ((if d.zero then "0" else "") + ((if d.width == 0 then "" else Digits(d.width, 10)) +
            (d.size + ([d.ch] + rest))))))
  {
    hide Digits;
    var a, b, c := if d.alt then "#" else "", if d.left then "-" else "", if d.zero then "0" else "";
    var e := if d.width == 0 then "" else Digits(d.width, 10);
    Grouped(d.size, [d.ch], rest);
    Grouped(e, d.size + [d.ch], rest);
    Grouped(c, e + (d.size + [d.ch]), rest);
    Grouped(b, c + (e + (d.size + [d.ch])), rest);
    Grouped(a, b + (c + (e + (d.size + [d.ch]))), rest);
    Grouped("%", a + (b + (c + (e + (d.size + [d.ch])))), rest);
  }

  lemma Grouped(a: string, b: string, c: string)
    ensures (a + b) + c == a + (b + c)
  {
  }

  // ---------------------------------------------------------------- what is printed

  /** A field of at least `width` characters: padded on the right if asked, else with zeros after the prefix if asked, else
      with spaces in front. */
  function Laid(d: Directive, prefix: string, body: string): string {
    var pad := if d.width > |prefix| + |body| then d.width - |prefix| - |body| else 0;
    if d.left then prefix + body + Fill(if d.zero then '0' else ' ', pad)
    else if d.zero then prefix + Fill('0', pad) + body
    else Fill(' ', pad) + prefix + body
  }

  lemma LaidPlain(d: Directive, prefix: string, body: string)
    requires d.width == 0
    ensures Laid(d, prefix, body) == prefix + body
  {
    NoFill(' ');
    NoFill('0');
  }

  /** The prefix of a number. */
  function Prefix(d: Directive, w: Word): string {
    match d.ch
    case 'd' => if Signed(w) < 0 then "-" else ""
    case 'x' => if d.alt then "0x" else ""
    case 'p' => "0x"
    case 'o' => if d.alt then "0" else ""
    case _ => ""
  }

  /** The integer conversions: %d prints the signed value in decimal, %u the word in decimal, %o in octal, %x and %p in
      hexadecimal, with the prefix of the conversion. */
  lemma NumberPrints(d: Directive, w: Word, rest: string, args: seq<Arg>) returns (digits: string)
    requires Proper(d) && d.ch in {'d', 'u', 'o', 'x', 'p'} && Matches(START, rest, args)
    ensures Matches(START, Spelled(d) + rest, [Num(w)] + args)
    ensures Format(START, Spelled(d) + rest, [Num(w)] + args) == Laid(d, Prefix(d, w), digits) + Format(START, rest, args)
    ensures d.ch == 'd' ==> Numeral(digits, if Signed(w) < 0 then -Signed(w) else Signed(w), 10)
    ensures d.ch == 'u' ==> Numeral(digits, w, 10)
    ensures d.ch == 'o' ==> Numeral(digits, w, 8)
    ensures d.ch == 'x' || d.ch == 'p' ==> Numeral(digits, w, 16)
  {
    hide Numeral, Format, Matches, Digits;
    digits := Digits(Magnitude(d.ch, w), BaseOf(d.ch));
    DigitsNumeral(Magnitude(d.ch, w), BaseOf(d.ch));
    assert ([Num(w)] + args)[1..] == args;
    IntegerIs(d, w);
    DirectivePrints(d, rest, [Num(w)] + args);
  }

  lemma IntegerIs(d: Directive, w: Word)
    requires d.ch in {'d', 'u', 'o', 'x', 'p'}
    ensures IntegerField(Asked(d), d.ch, w) == Laid(d, Prefix(d, w), Digits(Magnitude(d.ch, w), BaseOf(d.ch)))
  {
    hide Digits;
    assert (if Negative(d.ch, w) then "-" else "") + BasePrefix(Asked(d), d.ch) == Prefix(d, w);
  }

  lemma NoPrefix(d: Directive, body: string)
    ensures Padded(Asked(d), "", body) == Laid(d, "", body)
  {
  }

  /** %s prints its text, or "(null)". */
  lemma TextPrints(d: Directive, a: Arg, rest: string, args: seq<Arg>)
    requires Proper(d) && d.ch == 's' && !a.Num? && Matches(START, rest, args)
    ensures Matches(START, Spelled(d) + rest, [a] + args)
    ensures Format(START, Spelled(d) + rest, [a] + args) ==
            Laid(d, "", if a.Text? then a.s else "(null)") + Format(START, rest, args)
  {
    hide Format, Matches, Padded, Laid;
    assert ([a] + args)[1..] == args;
    NoPrefix(d, if a.Text? then a.s else "(null)");
    DirectivePrints(d, rest, [a] + args);
  }

  /** %c prints the low byte of its argument, and nothing for a NUL. */
  lemma CharPrints(d: Directive, w: Word, rest: string, args: seq<Arg>)
    requires Proper(d) && d.ch == 'c' && Matches(START, rest, args)
    ensures Matches(START, Spelled(d) + rest, [Num(w)] + args)
    ensures Format(START, Spelled(d) + rest, [Num(w)] + args) ==
            Laid(d, "", if w % 256 == 0 then "" else [(w % 256) as char]) + Format(START, rest, args)
  {
    hide Format, Matches, Padded, Laid;
    assert ([Num(w)] + args)[1..] == args;
    NoPrefix(d, CharText(w));
    DirectivePrints(d, rest, [Num(w)] + args);
  }

  /** %% prints a percent sign, and any other character prints itself; neither takes an argument. */
  lemma OtherPrints(d: Directive, rest: string, args: seq<Arg>)
    requires Proper(d) && d.ch !in {'d', 'u', 'o', 'x', 'p', 's', 'c'} && Matches(START, rest, args)
    ensures Matches(START, Spelled(d) + rest, args)
    ensures Format(START, Spelled(d) + rest, args) == Laid(d, "", [d.ch]) + Format(START, rest, args)
  {
    hide Format, Matches, Padded, Laid;
    NoPrefix(d, [d.ch]);
    DirectivePrints(d, rest, args);
  }

  /** Outside directives the format is printed as it is. */
  lemma PlainPrints(c: char, rest: string, args: seq<Arg>)
    requires c != '%' && Matches(START, rest, args)
    ensures Matches(START, [c] + rest, args) && Format(START, [c] + rest, args) == [c] + Format(START, rest, args)
  {
    assert ([c] + rest)[1..] == rest;
  }

  // ---------------------------------------------------------------- short formats

  lemma Short(d: Directive)
    requires d.width == 0 && !d.left && !d.zero && d.size == ""
    ensures Spelled(d) + "" == if d.alt then ['%', '#', d.ch] else ['%', d.ch]
  {
  }

  lemma ShortNumber(alt: bool, ch: char, w: Word) returns (digits: string)
    requires ch in {'d', 'u', 'o', 'x', 'p'}
    ensures var fmt := if alt then ['%', '#', ch] else ['%', ch];
            && Matches(START, fmt, [Num(w)])
            && Format(START, fmt, [Num(w)]) == Prefix(Directive(alt, false, false, 0, "", ch), w) + digits
    ensures ch == 'u' ==> Numeral(digits, w, 10)
    ensures ch == 'o' ==> Numeral(digits, w, 8)
    ensures ch == 'x' || ch == 'p' ==> Numeral(digits, w, 16)
  {
    hide Numeral, Format, Matches, Spelled, Laid;
    var d := Directive(alt, false, false, 0, "", ch);
    FormatEnd(START, []);
    digits := NumberPrints(d, w, "", []);
    Short(d);
    LaidPlain(d, Prefix(d, w), digits);
    assert [Num(w)] + [] == [Num(w)];
    assert Laid(d, Prefix(d, w), digits) + "" == Laid(d, Prefix(d, w), digits);
  }

  /** Without flags and width: the hexadecimal, octal and decimal numerals of a word, and their prefixes. */
  lemma ShortFormats(w: Word) returns (hex: string, oct: string, dec: string)
    ensures Numeral(hex, w, 16) && Numeral(oct, w, 8) && Numeral(dec, w, 10)
    ensures Matches(START, "%x", [Num(w)]) && Format(START, "%x", [Num(w)]) == hex
    ensures Matches(START, "%#x", [Num(w)]) && Format(START, "%#x", [Num(w)]) == "0x" + hex
    ensures Matches(START, "%p", [Num(w)]) && Format(START, "%p", [Num(w)]) == "0x" + hex
    ensures Matches(START, "%o", [Num(w)]) && Format(START, "%o", [Num(w)]) == oct
    ensures Matches(START, "%#o", [Num(w)]) && Format(START, "%#o", [Num(w)]) == "0" + oct
    ensures Matches(START, "%u", [Num(w)]) && Format(START, "%u", [Num(w)]) == dec
  {
    hide Numeral, Format, Matches;
    hex := ShortNumber(false, 'x', w);
    var hex2 := ShortNumber(true, 'x', w);
    var hex3 := ShortNumber(false, 'p', w);
    NumeralUnique(hex, hex2, w, 16);
    NumeralUnique(hex, hex3, w, 16);
    oct := ShortNumber(false, 'o', w);
    var oct2 := ShortNumber(true, 'o', w);
    NumeralUnique(oct, oct2, w, 8);
    dec := ShortNumber(false, 'u', w);
    assert "" + hex == hex && "" + oct == oct && "" + dec == dec;
  }
}
