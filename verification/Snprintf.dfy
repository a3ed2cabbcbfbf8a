/**
 vsnprintf: writes the rendered text into a buffer of a given size, as far as it
 fits, and counts all of it (lib/libc/snprintf.c).
 */
module Snprintf {
  import opened Folding
  import opened Formatting
  import opened Words

  // The output pointer and the count, with the room left for text.
  class Output {
    const buf: array<char>
    const room: nat
    var pos: nat
    var count: nat

    // Everything printed so far, and the buffer as it was.
    ghost var text: string
    ghost const was: seq<char>

    ghost predicate Valid()
      reads this, buf
    {
      && |was| == buf.Length && room <= buf.Length && count == |text|
      && pos == (if count < room then count else room)
      && (forall i :: 0 <= i < pos ==> buf[i] == text[i])
      && (forall i :: pos <= i < buf.Length ==> buf[i] == was[i])
    }

    constructor (buffer: array<char>, n: nat)
      requires n <= buffer.Length
      ensures Valid() && text == "" && buf == buffer && room == n && was == buffer[..]
    {
      buf, room, pos, count, text, was := buffer, n, 0, 0, "", buffer[..];
    }

    method Emit(c: char)
      requires Valid()
      modifies this, buf
      ensures Valid() && text == old(text) + [c]
    {
      if count < room {
        buf[pos] := c;
        pos := pos + 1;
      }
      count := count + 1;
      text := text + [c];
    }

    // string_print.
    method StringPrint(str: string)
      requires Valid()
      modifies this, buf
      ensures Valid() && text == old(text) + str
    {
      var i := 0;
      while i < |str|
        invariant 0 <= i <= |str| && Valid() && text == old(text) + str[..i]
      {
        Emit(str[i]);
        i := i + 1;
      }
      assert str[..i] == str;
    }

    method Pad(c: char, n: int)
      requires Valid()
      modifies this, buf
      ensures Valid() && text == old(text) + Repeat(c, n)
    {
      var i := 0;
      while i < n
        invariant 0 <= i && (i <= n || i == 0) && Valid() && text == old(text) + Repeat(c, i)
      {
        Emit(c);
        RepeatNext(c, i);
        i := i + 1;
      }
      assert Repeat(c, i) == Repeat(c, n);
    }

    // unsigned_num_print: the digits are collected lowest first in 20 places.
    method UnsignedNumPrint(unum: int, radix: int, padc: char, padn: int)
      requires Valid() && 0 <= unum < TWO64 && 10 <= radix <= 16
      modifies this, buf
      ensures Valid() && text == old(text) + Padded(Digits(unum, radix), padc, padn)
    {
      var numBuf, i := Collect(unum, radix);
      var width := i;
      ghost var digits, start := Digits(unum, radix), text;
      if padn > 0 {
        Pad(padc, padn - width);
      }
      EmitDown(numBuf, i, digits);
      if padn < 0 {
        Pad(padc, -padn - width);
      }
      PaddedIs(start, digits, padc, padn);
    }

    method EmitDown(numBuf: array<char>, n: nat, ghost digits: string)
      requires Valid() && numBuf != buf && n == |digits| <= numBuf.Length
      requires forall k :: 0 <= k < n ==> numBuf[k] == digits[n - 1 - k]
      modifies this, buf
      ensures Valid() && text == old(text) + digits
    {
      var i := n;
      while i > 0
        invariant 0 <= i <= n && Valid() && text == old(text) + digits[..n - i]
      {
        i := i - 1;
        Emit(numBuf[i]);
        assert digits[..n - i] == digits[..n - i - 1] + [digits[n - i - 1]];
      }
      assert digits[..n] == digits;
    }

    // vsnprintf's conversions of an argument.
    method Print(c: Conversion, args: seq<Arg>, k: nat)
      requires Valid() && c.Conversion?
      modifies this, buf
      ensures Valid() && text == old(text) + Convert(c, args, k)
    {
      hide Digits, Padded, ToInt;
      if c.kind == 's' {
        StringPrint(StrArg(args, k));
      } else if c.kind == 'u' {
        UnsignedNumPrint(ToUnsigned(WordArg(args, k), c.lCount), 10, c.padc, c.padn);
      } else if c.kind == 'x' {
        UnsignedNumPrint(ToUnsigned(WordArg(args, k), c.lCount), 16, c.padc, c.padn);
      } else {
        var num := ToInt(WordArg(args, k));
        if num < 0 {
          Emit('-');
          num := -num;
        }
        IntBounds(WordArg(args, k));
        UnsignedNumPrint(num, 10, c.padc, c.padn);
      }
    }
  }

  lemma IntBounds(x: int)
    ensures -0x8000_0000 <= ToInt(x) < 0x8000_0000
  {
  }

  lemma PaddedIs(start: string, digits: string, padc: char, padn: int)
    ensures padn > 0 ==> start + Repeat(padc, padn - |digits|) + digits == start + Padded(digits, padc, padn)
    ensures padn < 0 ==> start + digits + Repeat(padc, -padn - |digits|) == start + Padded(digits, padc, padn)
    ensures padn == 0 ==> start + digits == start + Padded(digits, padc, padn)
  {
  }

  lemma {:induction false} RepeatNext(c: char, n: int)
    requires 0 <= n
    ensures Repeat(c, n + 1) == Repeat(c, n) + [c]
    decreases n
  {
    if n > 0 {
      RepeatNext(c, n - 1);
    }
  }

  // The digit loop: 20 places are enough for 64 bits.
  method Collect(unum: int, radix: int) returns (numBuf: array<char>, i: nat)
    requires 0 <= unum < TWO64 && 10 <= radix <= 16
    ensures fresh(numBuf) && i == |Digits(unum, radix)| <= numBuf.Length == 20
    ensures forall k :: 0 <= k < i ==> numBuf[k] == Digits(unum, radix)[i - 1 - k]
  {
    numBuf := new char[20];
    TwentyDigits(unum, radix);
    ghost var all := Digits(unum, radix);
    var u := unum;
    i := 0;
    while true
      invariant 0 <= u && i < |all| && all[..|all| - i] == Digits(u, radix)
      invariant forall k :: 0 <= k < i ==> numBuf[k] == all[|all| - 1 - k]
      decreases u
    {
      LastDigit(u, radix);
      assert all[|all| - 1 - i] == Digit(u % radix);
      numBuf[i] := Digit(u % radix);
      i := i + 1;
      if u / radix == 0 {
        return;
      }
      assert all[..|all| - (i - 1)][..|all| - i] == all[..|all| - i];
      u := u / radix;
    }
  }

  lemma LastDigit(u: int, radix: int)
    requires 0 <= u && 2 <= radix <= 16
    ensures 0 <= u % radix < radix && 0 <= u / radix
    ensures var s := Digits(u, radix); s[|s| - 1] == Digit(u % radix)
    ensures var s := Digits(u, radix);
      if u / radix == 0 then |s| == 1 else |s| > 1 && s[..|s| - 1] == Digits(u / radix, radix) && u / radix < u
  {
    if u < radix {
      SmallQuotient(u, radix);
    } else {
      Smaller(u, radix);
      LargeQuotient(u, radix);
      var s := Digits(u / radix, radix);
      assert (s + [Digit(u % radix)])[..|s|] == s;
    }
  }

  lemma SmallQuotient(u: int, radix: int)
    requires 0 <= u < radix
    ensures u / radix == 0 && u % radix == u
  {
  }

  lemma LargeQuotient(u: int, radix: int)
    requires 0 < radix <= u
    ensures u / radix >= 1
  {
  }

  // The flags loop between '%' and the conversion character.
  method ParseSpecifier(f: string) returns (c: Conversion)
    ensures c == Specifier(f, 0, false, '\0', 0)
  {
    var rest, lCount, left, padc, padn := f, 0, false, '\0', 0;
    while rest != "" && (IsDigit(rest[0]) || rest[0] == '-' || rest[0] == 'l')
      invariant Specifier(f, 0, false, '\0', 0) == Specifier(rest, lCount, left, padc, padn)
      decreases |rest|
    {
      if rest[0] == '-' {
        left, rest := true, rest[1..];
      } else if rest[0] == 'l' {
        lCount, rest := lCount + 1, rest[1..];
      } else if rest[0] == '0' {
        NumberShortens(rest[1..], 0);
        var n, after := ParseNumber(rest[1..]);
        padc, padn, rest := '0', n, after;
      } else {
        NumberShortens(rest, 0);
        var n, after := ParseNumber(rest);
        padc, padn, rest := ' ', if left then -n else n, after;
      }
    }
    if rest != "" && rest[0] in "disux" {
      return Conversion(rest[0], lCount, padc, padn, rest[1..]);
    }
    c := Unsupported;
  }

  method ParseNumber(f: string) returns (n: int, rest: string)
    ensures (n, rest) == Number(f, 0)
  {
    n, rest := 0, f;
    while rest != "" && IsDigit(rest[0])
      invariant Number(f, 0) == Number(rest, n)
      decreases |rest|
    {
      n, rest := n * 10 + (rest[0] as int - '0' as int), rest[1..];
    }
  }

  // vsnprintf.  For every buffer size the result counts the whole text; a buffer
  // of size n holds its first n - 1 characters and a terminator.  On an
  // unsupported specifier, with assertions disabled, the result is -1 and the
  // text so far is not terminated.
  method Vsnprintf(s: array<char>, n: nat, fmt: string, args: seq<Arg>) returns (ret: int)
    requires n <= s.Length
    modifies s
    ensures var t := Render(fmt, args, 0);
      var room := if n == 0 then 0 else n - 1;
      var len := if |t.text| < room then |t.text| else room;
      && ret == (if t.supported then ToInt(|t.text|) else -1)
      && (forall i :: 0 <= i < len ==> s[i] == t.text[i])
      && (forall i :: len <= i < s.Length ==>
            s[i] == if i == len && 0 < n && (t.supported || n == 1) then '\0' else old(s[i]))
  {
    var size := n;
    if n == 1 {
      s[0] := '\0';
      size := 0;
    } else if n > 1 {
      size := n - 1;
    }
    var out := new Output(s, size);
    var supported := PrintAll(out, fmt, args);
    if !supported {
      return -1;
    }
    if size > 0 {
      s[out.pos] := '\0';
    }
    ret := ToInt(out.count);
  }

  // The loop over the format string.
  method PrintAll(out: Output, fmt: string, args: seq<Arg>) returns (supported: bool)
    requires out.Valid() && out.text == ""
    modifies out, out.buf
    ensures out.Valid() && Text(out.text, supported) == Render(fmt, args, 0)
  {
    var f, k := fmt, 0;
    ghost var whole := Render(fmt, args, 0);
    RenderStarts(fmt, args);
    while f != ""
      invariant out.Valid() && ToCome(whole, out.text, f, args, k)
      decreases |f|
    {
      if f[0] == '%' {
        var c := ParseSpecifier(f[1..]);
        RenderConversion(whole, out.text, f, args, k, c);
        if c.Unsupported? {
          return false;
        }
        out.Print(c, args, k);
        f, k := c.rest, k + 1;
      } else {
        RenderChar(whole, out.text, f, args, k);
        out.Emit(f[0]);
        f := f[1..];
      }
    }
    RenderEnds(whole, out.text, args, k);
    supported := true;
  }

  // `whole` is what has been printed and the rendering of the rest.
  ghost predicate ToCome(whole: Text, text: string, f: string, args: seq<Arg>, k: nat) {
    forall j {:trigger Look(j)} :: Look(j) ==>
      whole == Text(text + Render(f, args, k).text, Render(f, args, k).supported)
  }

  lemma RenderStarts(fmt: string, args: seq<Arg>)
    ensures ToCome(Render(fmt, args, 0), "", fmt, args, 0)
  {
    assert "" + Render(fmt, args, 0).text == Render(fmt, args, 0).text;
  }

  lemma RenderConversion(whole: Text, text: string, f: string, args: seq<Arg>, k: nat, c: Conversion)
    requires ToCome(whole, text, f, args, k) && f != "" && f[0] == '%' && c == Specifier(f[1..], 0, false, '\0', 0)
    ensures if c.Unsupported? then whole == Text(text, false)
      else ToCome(whole, text + Convert(c, args, k), c.rest, args, k + 1)
  {
    assert Look(0);
    if c.Conversion? {
      Assoc(text, Convert(c, args, k), Render(c.rest, args, k + 1).text);
    } else {
      assert text + "" == text;
    }
  }

  lemma RenderChar(whole: Text, text: string, f: string, args: seq<Arg>, k: nat)
    requires ToCome(whole, text, f, args, k) && f != "" && f[0] != '%'
    ensures ToCome(whole, text + [f[0]], f[1..], args, k)
  {
    assert Look(0);
    Assoc(text, [f[0]], Render(f[1..], args, k).text);
  }

  lemma RenderEnds(whole: Text, text: string, args: seq<Arg>, k: nat)
    requires ToCome(whole, text, "", args, k)
    ensures whole == Text(text, true)
  {
    assert Look(0);
    assert text + "" == text;
  }

  lemma Assoc(a: string, b: string, c: string)
    ensures a + (b + c) == a + b + c
  {
  }
}
