/**
 What a format string and its arguments stand for, without regard to a buffer
 (lib/libc/snprintf.c).
 */
module Formatting {
  import opened Words

  // An argument: the bits of a promoted integer, or a string.
  datatype Arg = Word(bits: int) | Str(text: string)

  // A missing argument, or one of the wrong kind, has no meaning in C; it reads
  // as 0 or as empty here.
  function WordArg(args: seq<Arg>, k: nat): int {
    if k < |args| && args[k].Word? then args[k].bits else 0
  }

  function StrArg(args: seq<Arg>, k: nat): string {
    if k < |args| && args[k].Str? then args[k].text else ""
  }

  function ToUnsigned(x: int, lCount: nat): int {
    if lCount == 0 then x % 0x1_0000_0000 else x % 0x1_0000_0000_0000_0000
  }

  // It keeps the lower 32 or 64 bits.
  lemma LowerWord(x: int, lCount: nat)
    ensures 0 <= ToUnsigned(x, lCount) < if lCount == 0 then TWO32 else TWO64
    ensures (x - ToUnsigned(x, lCount)) % (if lCount == 0 then TWO32 else TWO64) == 0
  {
  }

  // ---- numbers -------------------------------------------------------------

  function Digit(d: int): char
    requires 0 <= d < 16
  {
    if d < 10 then '0' + (d as char) else 'a' + ((d - 10) as char)
  }

  function DigitValue(c: char): int {
    if c <= '9' then c as int - '0' as int else c as int - 'a' as int + 10
  }

  // The digits of a number, the highest first.
  function Digits(u: int, radix: int): (s: string)
    requires 0 <= u && 2 <= radix <= 16
    ensures |s| > 0
    decreases u
  {
    if u < radix then [Digit(u)] else Smaller(u, radix); Digits(u / radix, radix) + [Digit(u % radix)]
  }

  lemma Smaller(u: int, radix: int)
    requires 0 < u && 2 <= radix
    ensures 0 <= u / radix < u && 0 <= u % radix < radix
  {
    var q := u / radix;
    assert u == radix * q + u % radix;
    if q >= u { Grows(radix, q); }
  }

  lemma Grows(radix: int, q: int)
    requires 2 <= radix && 0 < q
    ensures q < radix * q
  {
  }

  function NumberOf(s: string, radix: int): int {
    if s == [] then 0 else NumberOf(s[..|s| - 1], radix) * radix + DigitValue(s[|s| - 1])
  }

  lemma OneMoreDigit(s: string, c: char, radix: int)
    ensures NumberOf(s + [c], radix) == NumberOf(s, radix) * radix + DigitValue(c)
  {
    assert (s + [c])[..|s|] == s;
  }

  lemma DigitDenotes(d: int)
    requires 0 <= d < 16
    ensures DigitValue(Digit(d)) == d && (Digit(d) == '0' <==> d == 0)
  {
  }

  lemma {:induction false} NoLeadingZero(u: int, radix: int)
    requires 0 < u && 2 <= radix <= 16
    ensures Digits(u, radix)[0] != '0'
    decreases u
  {
    if u < radix {
      DigitDenotes(u);
    } else {
      Smaller(u, radix);
      AtLeastOne(u, radix);
      NoLeadingZero(u / radix, radix);
    }
  }

  lemma AtLeastOne(u: int, radix: int)
    requires 0 < radix <= u
    ensures 1 <= u / radix
  {
  }

  lemma DivMod(u: int, radix: int)
    requires 0 < radix
    ensures u / radix * radix + u % radix == u
  {
  }

  // The digits denote the number.
  lemma {:induction false} DigitsDenote(u: int, radix: int)
    requires 0 <= u && 2 <= radix <= 16
    ensures NumberOf(Digits(u, radix), radix) == u
    decreases u
  {
    if u < radix {
      DigitDenotes(u);
      assert Digits(u, radix)[..0] == [];
    } else {
      Smaller(u, radix);
      DigitsDenote(u / radix, radix);
      DigitDenotes(u % radix);
      OneMoreDigit(Digits(u / radix, radix), Digit(u % radix), radix);
      DivMod(u, radix);
    }
  }

  // Digits above 9 are small letters.
  lemma SmallLetters()
    ensures Digits(0xab, 16) == "ab" && Digits(0xcd, 16) == "cd" && Digits(0xef, 16) == "ef"
  {
  }

  function Power(radix: int, n: nat): int { if n == 0 then 1 else radix * Power(radix, n - 1) }

  lemma {:induction false} PowerPositive(radix: int, n: nat)
    requires 2 <= radix
    ensures 1 <= Power(radix, n)
  {
    if n > 0 { PowerPositive(radix, n - 1); }
  }

  lemma {:induction false} DigitCount(u: int, radix: int, n: nat)
    requires 0 <= u < Power(radix, n) && 2 <= radix <= 16 && 1 <= n
    ensures |Digits(u, radix)| <= n
    decreases n
  {
    assert Power(radix, 1) == radix * Power(radix, 0);
    if n > 1 && u >= radix {
      Smaller(u, radix);
      Divided(u, radix, Power(radix, n - 1));
      DigitCount(u / radix, radix, n - 1);
    }
  }

  lemma Divided(u: int, radix: int, p: int)
    requires 0 <= u < radix * p && 2 <= radix
    ensures u / radix < p
  {
    var q := u / radix;
    assert u == radix * q + u % radix;
    if q >= p { Order(radix, p, q); }
  }

  lemma Order(k: int, a: int, b: int)
    requires 0 < k && a <= b
    ensures k * a <= k * b
  {
  }

  // 20 places hold every 64-bit number.
  lemma TwentyDigits(u: int, radix: int)
    requires 0 <= u < TWO64 && 10 <= radix <= 16
    ensures |Digits(u, radix)| <= 20
  {
    PowerMonotone(radix, 20);
    DigitCount(u, radix, 20);
  }

  lemma {:induction false} PowerMonotone(radix: int, n: nat)
    requires 10 <= radix
    ensures Power(10, n) <= Power(radix, n)
    ensures n == 20 ==> TWO64 <= Power(10, n)
  {
    if n > 0 {
      PowerMonotone(radix, n - 1);
      PowerPositive(10, n - 1);
      Order(radix, Power(10, n - 1), Power(radix, n - 1));
      assert 10 * Power(10, n - 1) <= radix * Power(10, n - 1);
    }
    if n == 20 { PowersOfTen(); }
  }

  lemma PowersOfTen()
    ensures Power(10, 20) == 1_0000_0000_0000_0000_0000
  {
    assert Power(10, 5) == 100000;
    assert Power(10, 10) == 100000_00000;
    assert Power(10, 15) == 100000_00000_00000;
  }

  function Repeat(c: char, n: int): (s: string)
    ensures |s| == (if n < 0 then 0 else n) && forall i :: 0 <= i < |s| ==> s[i] == c
    decreases n
  {
    if n <= 0 then [] else [c] + Repeat(c, n - 1)
  }

  // Right-aligned for a positive width, left-aligned for a negative one.
  function Padded(digits: string, padc: char, padn: int): string {
    if padn >= 0 then Repeat(padc, padn - |digits|) + digits else digits + Repeat(padc, -padn - |digits|)
  }

  lemma PaddedLength(digits: string, padc: char, padn: int)
    ensures |Padded(digits, padc, padn)| ==
      var w := if padn < 0 then -padn else padn; if w < |digits| then |digits| else w
  {
  }

  // ---- format specifiers ---------------------------------------------------

  predicate IsDigit(c: char) { '0' <= c <= '9' }

  // The number at the start of a string, and what follows.
  function Number(f: string, acc: int): (int, string)
    decreases |f|
  {
    if f != "" && IsDigit(f[0]) then Number(f[1..], acc * 10 + (f[0] as int - '0' as int)) else (acc, f)
  }

  lemma {:induction false} NumberShortens(f: string, acc: int)
    ensures |Number(f, acc).1| <= |f|
    ensures f != "" && IsDigit(f[0]) ==> |Number(f, acc).1| < |f|
    decreases |f|
  {
    if f != "" && IsDigit(f[0]) {
      NumberShortens(f[1..], acc * 10 + (f[0] as int - '0' as int));
    }
  }

  datatype Conversion = Conversion(kind: char, lCount: nat, padc: char, padn: int, rest: string) | Unsupported

  function Specifier(f: string, lCount: nat, left: bool, padc: char, padn: int): (c: Conversion)
    ensures c.Conversion? ==> |c.rest| < |f|
    decreases |f|
  {
    if f == "" then Unsupported
    else if '1' <= f[0] <= '9' then
      NumberShortens(f, 0);
      var n := Number(f, 0);
      Specifier(n.1, lCount, left, ' ', if left then -n.0 else n.0)
    else if f[0] == '-' then Specifier(f[1..], lCount, true, padc, padn)
    else if f[0] == 'l' then Specifier(f[1..], lCount + 1, left, padc, padn)
    else if f[0] == '0' then
      NumberShortens(f[1..], 0);
      var n := Number(f[1..], 0);
      Specifier(n.1, lCount, left, '0', n.0)
    else if f[0] in "disux" then Conversion(f[0], lCount, padc, padn, f[1..])
    else Unsupported
  }

  lemma TimesTen(acc: int, d: int, p: int)
    ensures (acc * 10 + d) * p == acc * (10 * p) + d * p
  {
  }

  lemma {:induction false} NumberAfter(s: string, f: string, acc: int)
    requires (forall i :: 0 <= i < |s| ==> IsDigit(s[i])) && (f == "" || !IsDigit(f[0]))
    ensures Number(s + f, acc) == (acc * Power(10, |s|) + NumberOf(s, 10), f)
    decreases |s|
  {
    if s == "" {
      assert s + f == f;
    } else {
      var d := s[0] as int - '0' as int;
      assert (s + f)[1..] == s[1..] + f;
      NumberAfter(s[1..], f, acc * 10 + d);
      HighestDigit(s);
      TimesTen(acc, d, Power(10, |s| - 1));
    }
  }

  lemma Shifted(d: int, p: int, m: int)
    ensures (d * p + m) * 10 == d * (10 * p) + m * 10
  {
  }

  lemma {:induction false} HighestDigit(s: string)
    requires s != "" && IsDigit(s[0])
    ensures NumberOf(s, 10) == (s[0] as int - '0' as int) * Power(10, |s| - 1) + NumberOf(s[1..], 10)
    decreases |s|
  {
    if |s| > 1 {
      var t := s[..|s| - 1];
      HighestDigit(t);
      assert t[1..] == s[1..][..|s| - 2];
      assert s[1..][|s| - 2] == s[|s| - 1];
      Shifted(s[0] as int - '0' as int, Power(10, |s| - 2), NumberOf(t[1..], 10));
      assert NumberOf(s, 10) == NumberOf(t, 10) * 10 + DigitValue(s[|s| - 1]);
      assert NumberOf(s[1..], 10) == NumberOf(t[1..], 10) * 10 + DigitValue(s[|s| - 1]);
    } else {
      assert s[..0] == "" && s[1..] == "";
    }
  }

  lemma {:induction false} DecimalDigits(u: int)
    requires 0 <= u
    ensures forall i :: 0 <= i < |Digits(u, 10)| ==> IsDigit(Digits(u, 10)[i])
    decreases u
  {
    if u >= 10 {
      Smaller(u, 10);
      DecimalDigits(u / 10);
    }
  }

  // A width written in decimal is read back.
  lemma WidthReadsBack(w: int, f: string)
    requires 0 <= w && (f == "" || !IsDigit(f[0]))
    ensures Number(Digits(w, 10) + f, 0) == (w, f)
  {
    DecimalDigits(w);
    DigitsDenote(w, 10);
    NumberAfter(Digits(w, 10), f, 0);
  }

  // The usual forms of a specifier: a width pads with spaces on the left, after
  // '-' on the right, and after '0' with zeros on the left.
  lemma SpecifierForms(w: int, kind: char, rest: string)
    requires 0 < w && kind in "disux"
    ensures Specifier([kind] + rest, 0, false, '\0', 0) == Conversion(kind, 0, '\0', 0, rest)
    ensures Specifier(Digits(w, 10) + ([kind] + rest), 0, false, '\0', 0) == Conversion(kind, 0, ' ', w, rest)
    ensures Specifier("-" + (Digits(w, 10) + ([kind] + rest)), 0, false, '\0', 0) == Conversion(kind, 0, ' ', -w, rest)
    ensures Specifier("0" + (Digits(w, 10) + ([kind] + rest)), 0, false, '\0', 0) == Conversion(kind, 0, '0', w, rest)
  {
    var f := [kind] + rest;
    EndOfSpecifier(kind, rest);
    WidthReadsBack(w, f);
    WidthStarts(w, f);
    var g := Digits(w, 10) + f;
    assert ("-" + g)[1..] == g && ("0" + g)[1..] == g;
    assert Specifier(g, 0, false, '\0', 0) == Specifier(f, 0, false, ' ', w);
    assert Specifier("-" + g, 0, false, '\0', 0) == Specifier(g, 0, true, '\0', 0);
    assert Specifier(g, 0, true, '\0', 0) == Specifier(f, 0, true, ' ', -w);
    assert Specifier("0" + g, 0, false, '\0', 0) == Specifier(f, 0, false, '0', w);
  }

  lemma WidthStarts(w: int, f: string)
    requires 0 < w
    ensures Digits(w, 10) + f != "" && '1' <= (Digits(w, 10) + f)[0] <= '9'
  {
    DecimalDigits(w);
    NoLeadingZero(w, 10);
  }

  lemma EndOfSpecifier(kind: char, rest: string)
    requires kind in "disux"
    ensures !IsDigit(kind) && kind != '-' && kind != 'l' && ([kind] + rest)[0] == kind && ([kind] + rest)[1..] == rest
    ensures forall l: nat, left: bool, padc: char, padn: int ::
      Specifier([kind] + rest, l, left, padc, padn) == Conversion(kind, l, padc, padn, rest)
  {
  }

  // The text of one converted argument.
  function Convert(c: Conversion, args: seq<Arg>, k: nat): string
    requires c.Conversion?
  {
    if c.kind == 's' then StrArg(args, k)
    else if c.kind == 'u' then Padded(Digits(ToUnsigned(WordArg(args, k), c.lCount), 10), c.padc, c.padn)
    else if c.kind == 'x' then Padded(Digits(ToUnsigned(WordArg(args, k), c.lCount), 16), c.padc, c.padn)
    else
      var num := ToInt(WordArg(args, k));
      if num < 0 then "-" + Padded(Digits(-num, 10), c.padc, c.padn) else Padded(Digits(num, 10), c.padc, c.padn)
  }

  function Longer(a: int, b: int): int { if a < b then b else a }

  function Abs(x: int): nat { if x < 0 then -x else x }

  // A number takes the larger of its digits and its width, and a negative one its
  // sign on top of that.  A width does not apply to a string.
  lemma ConvertLength(c: Conversion, args: seq<Arg>, k: nat)
    requires c.Conversion? && c.kind in "disux"
    ensures c.kind == 's' ==> Convert(c, args, k) == StrArg(args, k)
    ensures var digits := Digits(ToUnsigned(WordArg(args, k), c.lCount), if c.kind == 'u' then 10 else 16);
      c.kind in "ux" ==> |Convert(c, args, k)| == Longer(|digits|, Abs(c.padn))
    ensures var num := ToInt(WordArg(args, k));
      c.kind in "di" ==> |Convert(c, args, k)| == Longer(|Digits(Abs(num), 10)|, Abs(c.padn)) + if num < 0 then 1 else 0
  {
    if c.kind in "di" {
      PaddedLength(Digits(Abs(ToInt(WordArg(args, k))), 10), c.padc, c.padn);
    } else if c.kind in "ux" {
      PaddedLength(Digits(ToUnsigned(WordArg(args, k), c.lCount), if c.kind == 'u' then 10 else 16), c.padc, c.padn);
    }
  }

  // ---- reading a number back -----------------------------------------------

  // The number that digits stand for, blanks apart.
  function Magnitude(s: string, radix: int): int {
    if s == "" then 0
    else if s[|s| - 1] == ' ' then Magnitude(s[..|s| - 1], radix)
    else Magnitude(s[..|s| - 1], radix) * radix + DigitValue(s[|s| - 1])
  }

  // The number that a text with an optional sign stands for.
  function Signed(s: string): int {
    if s != "" && s[0] == '-' then -Magnitude(s[1..], 10) else Magnitude(s, 10)
  }

  // The paddings that a specifier can ask for.
  predicate Pads(padc: char, padn: int) {
    padc == ' ' || (padc == '0' && 0 <= padn) || (padc == '\0' && padn == 0)
  }

  lemma {:induction false} NumberPositive(f: string, acc: int)
    requires 0 <= acc
    ensures 0 <= Number(f, acc).0
    decreases |f|
  {
    if f != "" && IsDigit(f[0]) {
      NumberPositive(f[1..], acc * 10 + (f[0] as int - '0' as int));
    }
  }

  lemma {:induction false} SpecifierPads(f: string, lCount: nat, left: bool, padc: char, padn: int)
    requires Pads(padc, padn)
    ensures var c := Specifier(f, lCount, left, padc, padn); c.Conversion? ==> Pads(c.padc, c.padn) && c.kind in "disux"
    decreases |f|
  {
    if f == "" {
    } else if '1' <= f[0] <= '9' {
      NumberShortens(f, 0);
      var n := Number(f, 0);
      SpecifierPads(n.1, lCount, left, ' ', if left then -n.0 else n.0);
    } else if f[0] == '-' {
      SpecifierPads(f[1..], lCount, true, padc, padn);
    } else if f[0] == 'l' {
      SpecifierPads(f[1..], lCount + 1, left, padc, padn);
    } else if f[0] == '0' {
      NumberShortens(f[1..], 0);
      NumberPositive(f[1..], 0);
      var n := Number(f[1..], 0);
      SpecifierPads(n.1, lCount, left, '0', n.0);
    }
  }

  lemma {:induction false} BlankTail(s: string, n: int, radix: int)
    ensures Magnitude(s + Repeat(' ', n), radix) == Magnitude(s, radix)
    decreases n
  {
    if n <= 0 {
      assert s + Repeat(' ', n) == s;
    } else {
      BlankTail(s + " ", n - 1, radix);
      assert s + Repeat(' ', n) == (s + " ") + Repeat(' ', n - 1);
      assert (s + " ")[..|s|] == s;
    }
  }

  // Blanks or zeros in front do not change a number.
  lemma {:induction false} PaddedFront(padc: char, n: int, s: string, radix: int)
    requires padc == ' ' || padc == '0'
    ensures Magnitude(Repeat(padc, n) + s, radix) == Magnitude(s, radix)
    decreases |s|, n
  {
    var g := Repeat(padc, n) + s;
    if s != "" {
      PaddedFront(padc, n, s[..|s| - 1], radix);
      assert g[..|g| - 1] == Repeat(padc, n) + s[..|s| - 1];
    } else if 0 < n {
      PaddedFront(padc, n - 1, "", radix);
      RepeatLast(padc, n);
      assert g[..|g| - 1] == Repeat(padc, n - 1) + "";
    }
  }

  lemma {:induction false} RepeatLast(c: char, n: int)
    requires 0 < n
    ensures Repeat(c, n) == Repeat(c, n - 1) + [c]
    decreases n
  {
    if 1 < n {
      RepeatLast(c, n - 1);
    }
  }

  lemma {:induction false} DigitsMagnitude(u: int, radix: int)
    requires 0 <= u && 2 <= radix <= 16
    ensures Magnitude(Digits(u, radix), radix) == NumberOf(Digits(u, radix), radix)
    ensures Digits(u, radix)[0] != '-'
    decreases u
  {
    if u < radix {
      assert Digits(u, radix)[..0] == "";
    } else {
      Smaller(u, radix);
      DigitsMagnitude(u / radix, radix);
      var d := Digits(u / radix, radix);
      assert Digits(u, radix)[..|d|] == d;
    }
  }

  lemma PaddedDenotes(u: int, radix: int, padc: char, padn: int)
    requires 0 <= u && 2 <= radix <= 16 && Pads(padc, padn)
    ensures Magnitude(Padded(Digits(u, radix), padc, padn), radix) == u
    ensures var s := Padded(Digits(u, radix), padc, padn); s != "" && s[0] != '-'
  {
    var d := Digits(u, radix);
    DigitsMagnitude(u, radix);
    DigitsDenote(u, radix);
    if padn < 0 {
      BlankTail(d, -padn - |d|, radix);
    } else if padc == '\0' {
      assert Padded(d, padc, padn) == d;
    } else {
      PaddedFront(padc, padn - |d|, d, radix);
    }
  }

  // The end of the range of an unsigned argument.
  function UnsignedEnd(lCount: nat): int { if lCount == 0 then TWO32 else TWO64 }

  // What a converted number stands for: %d and %i keep 32 bits with any number of
  // 'l', and %u and %x keep 32 bits without.
  lemma ConvertDenotes(f: string, args: seq<Arg>, k: nat)
    requires Specifier(f, 0, false, '\0', 0).Conversion?
    ensures var c, v := Specifier(f, 0, false, '\0', 0), WordArg(args, k);
      c.kind in "di" ==> (Signed(Convert(c, args, k)) == v <==> -0x8000_0000 <= v < 0x8000_0000)
    ensures var c, v := Specifier(f, 0, false, '\0', 0), WordArg(args, k);
      c.kind == 'u' ==> (Magnitude(Convert(c, args, k), 10) == v <==> 0 <= v < UnsignedEnd(c.lCount))
    ensures var c, v := Specifier(f, 0, false, '\0', 0), WordArg(args, k);
      c.kind == 'x' ==> (Magnitude(Convert(c, args, k), 16) == v <==> 0 <= v < UnsignedEnd(c.lCount))
  {
    var c, v := Specifier(f, 0, false, '\0', 0), WordArg(args, k);
    SpecifierPads(f, 0, false, '\0', 0);
    if c.kind in "di" {
      SignedDenotes(ToInt(v), c);
      IntRange(v);
      assert Signed(Convert(c, args, k)) == ToInt(v);
    } else if c.kind != 's' {
      PaddedDenotes(ToUnsigned(v, c.lCount), if c.kind == 'u' then 10 else 16, c.padc, c.padn);
      UnsignedRange(v, c.lCount);
    }
  }

  lemma SignedDenotes(num: int, c: Conversion)
    requires c.Conversion? && Pads(c.padc, c.padn)
    ensures num < 0 ==> Signed("-" + Padded(Digits(-num, 10), c.padc, c.padn)) == num
    ensures 0 <= num ==> Signed(Padded(Digits(num, 10), c.padc, c.padn)) == num
  {
    PaddedDenotes(Abs(num), 10, c.padc, c.padn);
    if num < 0 {
      var s := Padded(Digits(-num, 10), c.padc, c.padn);
      assert ("-" + s)[0] == '-' && ("-" + s)[1..] == s;
    }
  }

  lemma IntRange(v: int)
    ensures ToInt(v) == v <==> -0x8000_0000 <= v < 0x8000_0000
  {
  }

  lemma UnsignedRange(v: int, lCount: nat)
    ensures ToUnsigned(v, lCount) == v <==> 0 <= v < UnsignedEnd(lCount)
  {
  }

  // Every 'l' counts: with one, %u and %x take 64 bits.
  lemma LongModifier(g: string, n: nat, left: bool, padc: char, padn: int)
    ensures Specifier("l" + g, n, left, padc, padn) == Specifier(g, n + 1, left, padc, padn)
  {
    assert ("l" + g)[1..] == g;
  }

  lemma LongDenotes(kind: char, rest: string, args: seq<Arg>, k: nat)
    requires kind in "ux"
    ensures var c := Specifier("l" + ([kind] + rest), 0, false, '\0', 0);
      && c == Conversion(kind, 1, '\0', 0, rest)
      && var num := Magnitude(Convert(c, args, k), if kind == 'u' then 10 else 16);
         num == WordArg(args, k) <==> 0 <= WordArg(args, k) < 0x1_0000_0000_0000_0000
  {
    var f := "l" + ([kind] + rest);
    LongModifier([kind] + rest, 0, false, '\0', 0);
    EndOfSpecifier(kind, rest);
    ConvertDenotes(f, args, k);
  }

  // Where the padding goes: in front of the digits for a positive width, behind
  // them for a negative one, and always behind a minus sign.
  lemma ConvertAligned(c: Conversion, args: seq<Arg>, k: nat)
    requires c.Conversion? && c.kind in "diux"
    ensures var text := Convert(c, args, k);
      var num := if c.kind in "di" then ToInt(WordArg(args, k)) else ToUnsigned(WordArg(args, k), c.lCount);
      var digits := Digits(Abs(num), if c.kind == 'x' then 16 else 10);
      var pad := Repeat(c.padc, Abs(c.padn) - |digits|);
      text == (if num < 0 then "-" else "") + if c.padn < 0 then digits + pad else pad + digits
  {
    hide Digits, Repeat, ToInt, ToUnsigned;
    LowerWord(WordArg(args, k), c.lCount);
    var num := if c.kind in "di" then ToInt(WordArg(args, k)) else ToUnsigned(WordArg(args, k), c.lCount);
    var digits := Digits(Abs(num), if c.kind == 'x' then 16 else 10);
    assert "" + Padded(digits, c.padc, c.padn) == Padded(digits, c.padc, c.padn);
  }

  // The whole text, or what precedes an unsupported specifier.
  datatype Text = Text(text: string, supported: bool)

  function Render(f: string, args: seq<Arg>, k: nat): Text
    decreases |f|
  {
    if f == "" then Text("", true)
    else if f[0] == '%' then
      var c := Specifier(f[1..], 0, false, '\0', 0);
      if c.Unsupported? then Text("", false)
      else
        var t := Render(c.rest, args, k + 1);
        t.(text := Convert(c, args, k) + t.text)
    else
      var t := Render(f[1..], args, k);
      t.(text := [f[0]] + t.text)
  }

  // A plain conversion, and what follows it with the next argument.
  lemma PlainRendered(kind: char, rest: string, args: seq<Arg>, k: nat)
    requires kind in "disux"
    ensures var t := Render(rest, args, k + 1);
      Render("%" + ([kind] + rest), args, k) ==
        t.(text := Convert(Conversion(kind, 0, '\0', 0, rest), args, k) + t.text)
  {
    var f := [kind] + rest;
    assert ("%" + f)[0] == '%' && ("%" + f)[1..] == f;
    EndOfSpecifier(kind, rest);
  }

  lemma PlainDigits(kind: char, rest: string, u: int, args: seq<Arg>, k: nat)
    requires kind in "ux" && k < |args| && args[k] == Word(u) && 0 <= u < TWO32
    ensures Convert(Conversion(kind, 0, '\0', 0, rest), args, k) == Digits(u, if kind == 'u' then 10 else 16)
  {
    var d := Digits(u, if kind == 'u' then 10 else 16);
    assert Padded(d, '\0', 0) == d;
  }

  // Conversions take the arguments in turn.
  lemma InTurn(u: int, text: string, v: int, rest: string)
    requires 0 <= u < TWO32 && 0 <= v < TWO32
    ensures var args := [Word(u), Str(text), Word(v)];
      Render("%" + ("u" + ("%" + ("s" + ("%" + ("x" + rest))))), args, 0).text ==
        Digits(u, 10) + (text + (Digits(v, 16) + Render(rest, args, 3).text))
  {
    hide Render, Digits, Convert;
    var args := [Word(u), Str(text), Word(v)];
    PlainRendered('u', "%" + ("s" + ("%" + ("x" + rest))), args, 0);
    PlainRendered('s', "%" + ("x" + rest), args, 1);
    PlainRendered('x', rest, args, 2);
    PlainDigits('u', "%" + ("s" + ("%" + ("x" + rest))), u, args, 0);
    PlainDigits('x', rest, v, args, 2);
    ConvertLength(Conversion('s', 0, '\0', 0, "%" + ("x" + rest)), args, 1);
  }

  // Text without '%' is copied.
  lemma {:induction false} LiteralCopied(f: string, g: string, args: seq<Arg>, k: nat)
    requires forall i :: 0 <= i < |f| ==> f[i] != '%'
    ensures Render(f + g, args, k) == Text(f + Render(g, args, k).text, Render(g, args, k).supported)
    decreases |f|
  {
    if f == "" {
      assert f + g == g && f + Render(g, args, k).text == Render(g, args, k).text;
    } else {
      assert (f + g)[0] == f[0] && (f + g)[1..] == f[1..] + g;
      LiteralCopied(f[1..], g, args, k);
      assert [f[0]] + (f[1..] + Render(g, args, k).text) == f + Render(g, args, k).text;
    }
  }
}
