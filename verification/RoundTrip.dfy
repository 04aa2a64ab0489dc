/** Printing a number and parsing it back: %d of os161/lib/libc/__printf.c against os161/lib/libc/atoi.c. */
module RoundTrip {
  import opened Printf
  import opened Words
  import opened Atoi

  // ---------------------------------------------------------------- reading the format

  /** The state after a run of modifier characters. */
  function Mods(pf: Pf, text: string): Pf
    requires forall k :: 0 <= k < |text| ==> IsModifier(text[k])
    decreases |text|
  {
    if text == [] then pf else Mods(Modified(pf, text[0]), text[1..])
  }

  lemma {:induction false} ModsThen(pf: Pf, a: string, c: char)
    requires (forall k :: 0 <= k < |a| ==> IsModifier(a[k])) && IsModifier(c)
    ensures forall k :: 0 <= k < |a + [c]| ==> IsModifier((a + [c])[k])
    ensures Mods(pf, a + [c]) == Modified(Mods(pf, a), c)
    decreases |a|
  {
    hide Modified;
    if a == [] {
      assert a + [c] == [c];
      assert [c][1..] == [];
    } else {
      assert (a + [c])[1..] == a[1..] + [c];
      ModsThen(Modified(pf, a[0]), a[1..], c);
    }
  }

  lemma ModifiedStays(pf: Pf, ch: char)
    requires IsModifier(ch)
    ensures Modified(pf, ch).inPct == pf.inPct
  {
  }

  lemma {:induction false} FormatMods(pf: Pf, text: string, rest: string, args: seq<Arg>)
    requires pf.inPct && forall k :: 0 <= k < |text| ==> IsModifier(text[k])
    requires Matches(Mods(pf, text), rest, args)
    ensures Matches(pf, text + rest, args) && Format(pf, text + rest, args) == Format(Mods(pf, text), rest, args)
    decreases |text|
  {
    hide Modified;
    if text == [] {
      assert text + rest == rest;
    } else {
      ModifiedStays(pf, text[0]);
      assert (text + rest)[1..] == text[1..] + rest;
      FormatMods(Modified(pf, text[0]), text[1..], rest, args);
    }
  }

  lemma DigitIsModifier(d: nat)
    requires d < 10
    ensures IsModifier(DigitChar(d)) && DigitChar(d) as int == '0' as int + d
    ensures DigitChar(d) !in "#-lq"
  {
  }

  /** A width written in decimal is read back as that width. */
  lemma {:induction false} WidthIsRead(pf: Pf, n: nat)
    requires pf.spacing == 0 && n > 0
    ensures forall k :: 0 <= k < |Digits(n, 10)| ==> IsModifier(Digits(n, 10)[k])
    ensures Mods(pf, Digits(n, 10)) == pf.(spacing := n)
  {
    hide DigitChar, IsModifier;
    DigitIsModifier(n % 10);
    if n < 10 {
      var c := DigitChar(n);
      assert Digits(n, 10) == [c] && [c][1..] == [];
    } else {
      WidthIsRead(pf, n / 10);
      ModsThen(pf, Digits(n / 10, 10), DigitChar(n % 10));
      assert Digits(n, 10) == Digits(n / 10, 10) + [DigitChar(n % 10)];
    }
  }

  /** The format "%d" with an optional `-`, an optional `0` and an optional width. */
  function Percent(left: bool, zero: bool, width: nat): string {
    "%" + ((if left then "-" else "") + (if zero then "0" else "") + (if width == 0 then "" else Digits(width, 10)) + "d")
  }

  function Flags(left: bool, zero: bool, width: nat): Pf {
    Pf(true, width, left, if zero then '0' else ' ', false)
  }

  lemma FormatD(pf: Pf, w: Word)
    requires pf.inPct
    ensures Matches(pf, "d", [Num(w)]) && Format(pf, "d", [Num(w)]) == IntegerField(pf, 'd', w)
  {
    hide IntegerField;
    assert "d"[1..] == [];
    FormatEnd(START, []);
    assert [Num(w)][1..] == [];
    assert IntegerField(pf, 'd', w) + "" == IntegerField(pf, 'd', w);
  }

  lemma FormatWidth(pf: Pf, width: nat, w: Word)
    requires pf.inPct && pf.spacing == 0
    ensures var text := (if width == 0 then "" else Digits(width, 10)) + "d";
            Matches(pf, text, [Num(w)]) && Format(pf, text, [Num(w)]) == IntegerField(pf.(spacing := width), 'd', w)
  {
    hide IntegerField, Format, Matches, Digits, Modified, IsModifier;
    if width == 0 {
      assert pf == pf.(spacing := 0) && "" + "d" == "d";
      FormatD(pf, w);
    } else {
      WidthIsRead(pf, width);
      FormatD(pf.(spacing := width), w);
      FormatMods(pf, Digits(width, 10), "d", [Num(w)]);
    }
  }

  lemma FormatFlags(left: bool, zero: bool, rest: string, args: seq<Arg>)
    requires Matches(Flags(left, zero, 0), rest, args)
    ensures var text := (if left then "-" else "") + (if zero then "0" else "") + rest;
            && Matches(Flags(false, false, 0), text, args)
            && Format(Flags(false, false, 0), text, args) == Format(Flags(left, zero, 0), rest, args)
  {
    var text := (if left then "-" else "") + (if zero then "0" else "");
    var pf := Flags(false, false, 0);
    assert Mods(pf, text) == Flags(left, zero, 0) by {
      if left && zero {
        assert text == "-0" && text[1..] == "0" && "0"[1..] == [];
      } else if left {
        assert text == "-" && text[1..] == [];
      } else if zero {
        assert text == "0" && text[1..] == [];
      } else {
        assert text == [];
      }
    }
    hide Format, Matches, Mods, Modified;
    FormatMods(pf, text, rest, args);
  }

  /** What the whole format prints. */
  lemma PercentPrints(left: bool, zero: bool, width: nat, w: Word)
    ensures Matches(START, Percent(left, zero, width), [Num(w)])
    ensures Format(START, Percent(left, zero, width), [Num(w)]) == IntegerField(Flags(left, zero, width), 'd', w)
  {
    hide IntegerField, Digits, IsModifier;
    var d := (if width == 0 then "" else Digits(width, 10)) + "d";
    var flags := (if left then "-" else "") + (if zero then "0" else "");
    FormatWidth(Flags(left, zero, 0), width, w);
    FormatFlags(left, zero, d, [Num(w)]);
    var fmt := Percent(left, zero, width);
    assert fmt == "%" + (flags + d);
    assert fmt[0] == '%' && fmt[1..] == flags + d;
  }

  // ---------------------------------------------------------------- the round trip

  function SignText(w: Word): string {
    if Negative('d', w) then "-" else ""
  }

  function NumberText(w: Word): string {
    SignText(w) + Digits(Magnitude('d', w), 10)
  }

  /** What parsing a magnitude gives with the sign of `w` put back. */
  function Restored(w: Word, val: Word): Word {
    if Negative('d', w) then Negated(val) else val
  }

  lemma RestoredIs(w: Word, val: Word)
    ensures Restored(w, val) == w <==> val == Magnitude('d', w)
  {
  }

  lemma StartsWithDigit(n: nat)
    ensures AllDigits(Digits(n, 10)) && IsDigit(Digits(n, 10)[0])
  {
    DecimalDigits(n);
  }

  /** A sign, then text that starts with a digit. */
  lemma SignedValue(w: Word, p: nat, t: string)
    requires t != [] && IsDigit(t[0])
    ensures AtoiOf(Fill(' ', p) + (SignText(w) + t)) == Restored(w, Value(t, 0))
  {
    hide Value;
    SkipSpaces(p, SignText(w) + t);
    if Negative('d', w) {
      assert ("-" + t)[1..] == t;
    } else {
      assert "" + t == t;
    }
  }

  /** The digits of the magnitude, then spaces or nothing. */
  lemma DigitsThenSpaces(n: Word, p: nat)
    ensures Value(Digits(n, 10) + Fill(' ', p), 0) == n
  {
    hide Digits;
    StartsWithDigit(n);
    ValueThen(Digits(n, 10), Fill(' ', p), 0);
    ValueOfWord(n);
  }

  lemma DigitsThenZeros(n: Word, p: nat)
    ensures Value(Digits(n, 10) + Fill('0', p), 0) == n * Pow(10, p) % U32
  {
    hide Digits, Pow;
    StartsWithDigit(n);
    ValueThen(Digits(n, 10), Fill('0', p), 0);
    ValueOfWord(n);
    TrailingZeros(p, n);
  }

  function Padding(w: Word, width: nat): nat {
    if width > |NumberText(w)| then width - |NumberText(w)| else 0
  }

  lemma NoFill(c: char)
    ensures Fill(c, 0) == ""
  {
  }

  lemma LeftField(w: Word, zero: bool, width: nat)
    ensures var d, p := Digits(Magnitude('d', w), 10), Padding(w, width);
            IntegerField(Flags(false, zero, width), 'd', w) ==
            if zero then Fill(' ', 0) + (SignText(w) + (Fill('0', p) + d)) else Fill(' ', p) + (SignText(w) + d)
  {
    hide Digits;
    var d, p := Digits(Magnitude('d', w), 10), Padding(w, width);
    var pf := Flags(false, zero, width);
    assert SignText(w) + "" == SignText(w);
    assert IntegerField(pf, 'd', w) == Padded(pf, SignText(w), d);
    NoFill(' ');
    Regrouped(Fill(' ', if zero then 0 else p), SignText(w), if zero then Fill('0', p) else "", d);
  }

  lemma Regrouped(a: string, b: string, c: string, d: string)
    ensures a + (b + (c + d)) == a + (b + c + d) && a + (b + d) == a + b + d
            && (a == "" ==> a + (b + c + d) == b + c + d)
  {
  }

  lemma OnTheLeft(w: Word, zero: bool, width: nat)
    ensures AtoiOf(IntegerField(Flags(false, zero, width), 'd', w)) == w
  {
    hide Digits, Value, AtoiOf, IntegerField, Restored, SignText;
    var n, p := Magnitude('d', w), Padding(w, width);
    var d := Digits(n, 10);
    LeftField(w, zero, width);
    StartsWithDigit(n);
    DigitsThenSpaces(n, 0);
    assert d + Fill(' ', 0) == d;
    RestoredIs(w, n);
    if zero {
      LeadingZeros(p, d);
      assert (Fill('0', p) + d)[0] == if p > 0 then '0' else d[0];
      SignedValue(w, 0, Fill('0', p) + d);
    } else {
      SignedValue(w, p, d);
    }
  }

  lemma OnTheRight(w: Word, zero: bool, width: nat)
    ensures AtoiOf(IntegerField(Flags(true, zero, width), 'd', w)) == w <==> !zero || w == 0 || Padding(w, width) == 0
  {
    hide Digits, Value, AtoiOf, Pow;
    var n, p := Magnitude('d', w), Padding(w, width);
    var d := Digits(n, 10);
    var fill := Fill(if zero then '0' else ' ', p);
    StartsWithDigit(n);
    NoFill(' ');
    var t := d + fill;
    assert t[0] == d[0];
    SignedValue(w, 0, t);
    assert SignText(w) + "" == SignText(w);
    assert IntegerField(Flags(true, zero, width), 'd', w) == Fill(' ', 0) + (SignText(w) + t);
    RestoredIs(w, Value(t, 0));
    if !zero || p == 0 {
      NoFill('0');
      DigitsThenSpaces(n, p);
    } else {
      DigitsThenZeros(n, p);
      ZerosChange(n, p);
    }
  }

  /** %d with any width and flags is read back by atoi as the number it was, for every 32-bit integer, except when
      `-` and `0` are given together and there is room to fill: then zeros follow the number, and only 0 survives. */
  lemma PrintParse(left: bool, zero: bool, width: nat, w: Word)
    ensures Matches(START, Percent(left, zero, width), [Num(w)])
    ensures AtoiOf(Format(START, Percent(left, zero, width), [Num(w)])) == w <==>
            !(left && zero && width > |NumberText(w)|) || w == 0
  {
    hide Format, Matches, IntegerField, Digits, AtoiOf;
    PercentPrints(left, zero, width, w);
    if left {
      OnTheRight(w, zero, width);
    } else {
      OnTheLeft(w, zero, width);
    }
  }
}
