/** The printer of lib/libc/__printf.c and the buffer of lib/libc/snprintf.c. */
module Printf {
  import opened Options

  const WORD: int := 0x1_0000_0000

  /** sizeof(long) * CHAR_BIT / 3 + 2 */
  const NUMBER_BUF_SIZE: nat := 12

  // ------------------------------------------------------------------ digits

  function DigitChar(d: nat): (c: char)
    requires d < 16
  {
    "0123456789abcdef"[d]
  }

  function Quo(n: nat, b: nat): (q: nat)
    requires b >= 2
    ensures (n > 0 ==> q < n) && (q > 0 <==> n >= b)
  {
    n / b
  }

  function Rem(n: nat, b: nat): (r: nat)
    requires b >= 2
    ensures r < b && (n < b ==> r == n)
  {
    n % b
  }

  /** n in the given base, most significant digit first. */
  function Digits(n: nat, base: nat): (ds: string)
    requires 2 <= base <= 16
    ensures |ds| > 0
    decreases n
  {
    if n < base then [DigitChar(n)] else Digits(Quo(n, base), base) + [DigitChar(Rem(n, base))]
  }

  predicate IsDigit(c: char) {
    '0' <= c <= '9'
  }

  function DigitValue(c: char): (d: nat)
    requires IsDigit(c)
    ensures d < 10
  {
    c as int - '0' as int
  }

  predicate AllDigits(s: string) {
    forall i :: 0 <= i < |s| ==> IsDigit(s[i])
  }

  /** The number a string of decimal digits denotes. */
  function Value(s: string): nat
    requires AllDigits(s)
  {
    if s == [] then 0 else 10 * Value(s[..|s| - 1]) + DigitValue(s[|s| - 1])
  }

  lemma DigitCharValue(d: nat)
    requires d < 10
    ensures IsDigit(DigitChar(d)) && DigitValue(DigitChar(d)) == d
  {
  }

  /** Printing in base 10 and reading back is the identity. */
  lemma {:induction false} DigitsValue(n: nat)
    ensures AllDigits(Digits(n, 10)) && Value(Digits(n, 10)) == n
    decreases n
  {
    hide DigitChar;
    DigitCharValue(n % 10);
    var ds := Digits(n, 10);
    if n < 10 {
      assert ds[..|ds| - 1] == [];
    } else {
      DigitsValue(Quo(n, 10));
      assert ds[..|ds| - 1] == Digits(Quo(n, 10), 10);
    }
  }

  /** base to the power k. */
  function Power(base: nat, k: nat): nat {
    if k == 0 then 1 else base * Power(base, k - 1)
  }

  lemma {:induction false} DigitsLength(n: nat, base: nat, k: nat)
    requires 2 <= base <= 16 && k > 0 && n < Power(base, k)
    ensures |Digits(n, base)| <= k
    decreases k
  {
    if n >= base {
      assert n < base * Power(base, k - 1);
      DivideBound(n, base, Power(base, k - 1));
      assert k > 1;
      DigitsLength(Quo(n, base), base, k - 1);
    }
  }

  lemma DivideBound(n: nat, b: nat, m: nat)
    requires b >= 2 && n < b * m
    ensures Quo(n, b) < m
  {
  }

  lemma EightPowers()
    ensures Power(8, 11) == 0x2_0000_0000
  {
    assert Power(8, 3) == 512;
    assert Power(8, 6) == 512 * Power(8, 3);
    assert Power(8, 9) == 512 * Power(8, 6);
    assert Power(8, 11) == 64 * Power(8, 9);
  }

  lemma {:induction false} PowerGrows(a: nat, b: nat, k: nat)
    requires 1 <= a <= b
    ensures 1 <= Power(a, k) <= Power(b, k)
  {
    if k > 0 {
      PowerGrows(a, b, k - 1);
      TimesGrows(a, b, Power(a, k - 1), Power(b, k - 1));
    }
  }

  lemma TimesGrows(a: nat, b: nat, x: nat, y: nat)
    requires 1 <= a <= b && 1 <= x <= y
    ensures 1 <= a * x <= b * y
  {
    assert a * x <= b * x;
    assert b * x <= b * y;
    assert 1 * x <= a * x;
  }

  /** The digits of a 32-bit number and a NUL fit the buffer, in base 8 and above. */
  lemma BufferSuffices(n: nat, base: nat)
    requires n < WORD && 8 <= base <= 16
    ensures |Digits(n, base)| < NUMBER_BUF_SIZE
  {
    EightPowers();
    PowerGrows(8, base, 11);
    DigitsLength(n, base, 11);
  }

  // ------------------------------------------------------------------ fields

  /** An argument: a 32-bit word, or a string, NULL for None. */
  datatype Arg = Arg(num: nat, str: Option<string>)

  predicate ArgsOk(args: seq<Arg>) {
    forall i :: 0 <= i < |args| ==> args[i].num < WORD
  }

  /** What has been seen of a conversion. */
  datatype Flags = Flags(inPct: bool, spacing: nat, left: bool, zero: bool, alt: bool)

  const PLAIN: Flags := Flags(false, 0, false, false, false)

  function Repeat(c: char, n: nat): (s: string)
    ensures |s| == n && forall i :: 0 <= i < n ==> s[i] == c
  {
    seq(n, _ => c)
  }

  function Padding(f: Flags, len: nat): nat {
    if f.spacing > len then f.spacing - len else 0
  }

  /** Padding goes after the text, between prefix and digits, or in front. */
  function Field(f: Flags, prefix: string, stuff: string): string {
    var pad := Padding(f, |prefix| + |stuff|);
    if f.left then prefix + stuff + Repeat(if f.zero then '0' else ' ', pad)
    else if f.zero then prefix + Repeat('0', pad) + stuff
    else Repeat(' ', pad) + prefix + stuff
  }

  /** A field is as wide as asked, or as its text. */
  lemma FieldWidth(f: Flags, prefix: string, stuff: string)
    ensures |Field(f, prefix, stuff)| == if f.spacing > |prefix| + |stuff| then f.spacing else |prefix| + |stuff|
  {
  }

  function Signed(w: nat): int
    requires w < WORD
  {
    if w < 0x8000_0000 then w else w - WORD
  }

  function Magnitude(n: int): nat {
    if n < 0 then -n else n
  }

  function BaseOf(ch: char): nat {
    if ch == 'o' then 8 else if ch == 'x' || ch == 'p' then 16 else 10
  }

  function Prefix(f: Flags, ch: char): string {
    if !f.alt && ch != 'p' then "" else if BaseOf(ch) == 16 then "0x" else if BaseOf(ch) == 8 then "0" else ""
  }

  /** The text of an integer conversion. */
  function Number(f: Flags, ch: char, w: nat): string
    requires w < WORD
  {
    if ch == 'd' && Signed(w) < 0 then Field(f, "-" + Prefix(f, ch), Digits(Magnitude(Signed(w)), 10))
    else Field(f, Prefix(f, ch), Digits(w, BaseOf(ch)))
  }

  predicate IsModifier(ch: char) {
    ch in "#-ql0123456789"
  }

  predicate IsInteger(ch: char) {
    ch in "doupx"
  }

  function Modify(f: Flags, ch: char): Flags {
    if ch == '#' then f.(alt := true)
    else if ch == '-' then f.(left := true)
    else if ch == 'l' || ch == 'q' then f
    else if ch == '0' && f.spacing == 0 then f.(zero := true)
    else if IsDigit(ch) then f.(spacing := f.spacing * 10 + DigitValue(ch))
    else f
  }

  function Conversion(f: Flags, ch: char, arg: Arg): string
    requires arg.num < WORD
  {
    if IsInteger(ch) then Number(f, ch, arg.num)
    else if ch == 's' then Field(f, "", if arg.str.None? then "(null)" else arg.str.value)
    else if ch == 'c' then Field(f, "", if arg.num % 256 == 0 then "" else [(arg.num % 256) as char])
    else Field(f, "", [ch])
  }

  predicate TakesArg(ch: char) {
    IsInteger(ch) || ch == 's' || ch == 'c'
  }

  /** A missing argument is read as 0 and NULL. */
  function First(args: seq<Arg>): Arg {
    if args == [] then Arg(0, None) else args[0]
  }

  function Others(args: seq<Arg>): seq<Arg> {
    if args == [] then [] else args[1..]
  }

  /** Everything a format prints. */
  function Render(fmt: string, args: seq<Arg>, f: Flags): string
    requires ArgsOk(args)
  {
    if fmt == [] then ""
    else if !f.inPct && fmt[0] != '%' then [fmt[0]] + Render(fmt[1..], args, f)
    else if !f.inPct then Render(fmt[1..], args, f.(inPct := true))
    else if IsModifier(fmt[0]) then Render(fmt[1..], args, Modify(f, fmt[0]))
    else Conversion(f, fmt[0], First(args)) + Render(fmt[1..], if TakesArg(fmt[0]) then Others(args) else args, PLAIN)
  }

  /** What one character of the format prints, and the flags and arguments after it. */
  function Emitted(f: Flags, ch: char, args: seq<Arg>): string
    requires ArgsOk(args)
  {
    if !f.inPct then if ch == '%' then "" else [ch]
    else if IsModifier(ch) then ""
    else Conversion(f, ch, First(args))
  }

  function FlagsAfter(f: Flags, ch: char): Flags {
    if !f.inPct then if ch == '%' then f.(inPct := true) else f
    else if IsModifier(ch) then Modify(f, ch)
    else PLAIN
  }

  function ArgsAfter(f: Flags, ch: char, args: seq<Arg>): seq<Arg> {
    if f.inPct && !IsModifier(ch) && TakesArg(ch) then Others(args) else args
  }

  lemma RenderNothing(args: seq<Arg>, f: Flags)
    requires ArgsOk(args)
    ensures Render("", args, f) == ""
  {
  }

  lemma RenderStep(fmt: string, args: seq<Arg>, f: Flags)
    requires fmt != [] && ArgsOk(args)
    ensures ArgsOk(ArgsAfter(f, fmt[0], args))
    ensures Render(fmt, args, f)
      == Emitted(f, fmt[0], args) + Render(fmt[1..], ArgsAfter(f, fmt[0], args), FlagsAfter(f, fmt[0]))
  {
    hide Conversion;
    hide Modify;
    hide IsModifier;
    hide TakesArg;
    assert "" + Render(fmt[1..], ArgsAfter(f, fmt[0], args), FlagsAfter(f, fmt[0]))
      == Render(fmt[1..], ArgsAfter(f, fmt[0], args), FlagsAfter(f, fmt[0]));
  }

  // ------------------------------------------------------------ the machines

  /** SNP: a buffer that takes what fits. */
  class Snp {
    const buf: array<char>
    const buflen: nat
    var bufpos: nat
    /** Everything sent. */
    ghost var sent: string

    ghost predicate Valid()
      reads this, buf
    {
      && buflen <= buf.Length
      && bufpos == (if |sent| <= buflen then |sent| else buflen)
      && buf[..bufpos] == sent[..bufpos]
    }

    constructor (buf: array<char>, len: nat)
      requires len <= buf.Length
      ensures Valid() && this.buf == buf && buflen == (if len == 0 then 0 else len - 1) && sent == ""
    {
      this.buf := buf;
      buflen := if len == 0 then 0 else len - 1;
      bufpos := 0;
      sent := "";
    }

    /** __snprintf_send */
    method Send(data: string)
      requires Valid()
      modifies this, buf
      ensures Valid() && sent == old(sent) + data && buf[buflen..] == old(buf[buflen..])
    {
      ghost var sent0 := sent;
      var i := 0;
      while i < |data|
        invariant 0 <= i <= |data| && Valid() && sent == sent0 + data[..i] && buf[buflen..] == old(buf[buflen..])
      {
        if bufpos < buflen {
          buf[bufpos] := data[i];
          bufpos := bufpos + 1;
        }
        sent := sent + [data[i]];
        i := i + 1;
      }
    }
  }

  /** PF: the state of one printf. */
  class Pf {
    const snp: Snp
    var args: seq<Arg>
    var charcount: nat
    var inPct: bool
    var num: nat
    var sign: bool
    var spacing: nat
    var rightspc: bool
    var fillchar: char
    var base: nat
    var baseprefix: bool
    var altformat: bool

    ghost function F(): Flags
      reads this
    {
      Flags(inPct, spacing, rightspc, fillchar == '0', altformat)
    }

    ghost predicate Valid()
      reads this, snp, snp.buf
    {
      snp.Valid() && charcount == |snp.sent| && ArgsOk(args) && (fillchar == '0' || fillchar == ' ')
    }

    constructor (snp: Snp, args: seq<Arg>)
      requires snp.Valid() && snp.sent == "" && ArgsOk(args)
      ensures Valid() && this.snp == snp && this.args == args && F() == PLAIN && !sign && !baseprefix
    {
      this.snp := snp;
      this.args := args;
      charcount := 0;
      inPct, num, sign, spacing := false, 0, false, 0;
      rightspc, fillchar, base, baseprefix, altformat := false, ' ', 0, false, false;
    }

    /** __pf_print */
    method Print(txt: string)
      requires Valid()
      modifies this`charcount, snp, snp.buf
      ensures Valid() && snp.sent == old(snp.sent) + txt && snp.buf[snp.buflen..] == old(snp.buf[snp.buflen..])
    {
      snp.Send(txt);
      charcount := charcount + |txt|;
    }

    /** __pf_endfield */
    method EndField()
      requires Valid()
      modifies this
      ensures Valid() && F() == PLAIN && args == old(args) && !sign && !baseprefix
    {
      inPct, num, sign, spacing := false, 0, false, 0;
      rightspc, fillchar, base, baseprefix, altformat := false, ' ', 0, false, false;
    }

    /** __pf_modifier */
    method Modifier(ch: char)
      requires Valid() && IsModifier(ch)
      modifies this`altformat, this`rightspc, this`spacing, this`fillchar
      ensures Valid() && F() == Modify(old(F()), ch)
    {
      if ch == '#' {
        altformat := true;
      } else if ch == '-' {
        rightspc := true;
      } else if ch == 'l' || ch == 'q' {
      } else if ch == '0' {
        if spacing > 0 {
          spacing := spacing * 10;
        } else {
          fillchar := '0';
        }
      } else {
        spacing := spacing * 10 + (ch as int - '0' as int);
      }
    }

    /** __pf_fill */
    method Fill(n: nat)
      requires Valid()
      modifies this`charcount, snp, snp.buf
      ensures Valid() && snp.sent == old(snp.sent) + Repeat(fillchar, n)
      ensures snp.buf[snp.buflen..] == old(snp.buf[snp.buflen..])
    {
      ghost var sent := snp.sent;
      var i := 0;
      while i < n
        invariant 0 <= i <= n && Valid() && snp.sent == sent + Repeat(fillchar, i)
        invariant snp.buf[snp.buflen..] == old(snp.buf[snp.buflen..])
      {
        Print([fillchar]);
        i := i + 1;
      }
    }

    /** __pf_printstuff */
    method PrintStuff(prefix: string, prefix2: string, stuff: string)
      requires Valid()
      modifies this`charcount, snp, snp.buf
      ensures Valid() && snp.sent == old(snp.sent) + Field(F(), prefix + prefix2, stuff)
      ensures snp.buf[snp.buflen..] == old(snp.buf[snp.buflen..])
    {
      hide Field;
      hide Repeat;
      ghost var sent := snp.sent;
      var len := |prefix| + |prefix2| + |stuff|;
      var spc := spacing;
      if spc > len {
        spc := spc - len;
      } else {
        spc := 0;
      }
      assert spc == Padding(F(), |prefix + prefix2| + |stuff|);
      ghost var a, b, c := Fore(F(), spc), Middle(F(), spc), Aft(F(), spc);
      NoPadding(fillchar);
      if spc > 0 && !rightspc && fillchar != '0' {
        Fill(spc);
      }
      assert snp.sent == sent + a;
      Print(prefix);
      Print(prefix2);
      if spc > 0 && !rightspc && fillchar == '0' {
        Fill(spc);
      }
      assert snp.sent == sent + a + prefix + prefix2 + b;
      Print(stuff);
      if spc > 0 && rightspc {
        Fill(spc);
      }
      assert snp.sent == sent + a + prefix + prefix2 + b + stuff + c;
      FieldIs(sent, F(), prefix, prefix2, stuff);
    }

    /** The digit loop of __pf_printnum, from right to left in a buffer of NUMBER_BUF_SIZE bytes. */
    method Convert() returns (text: string)
      requires num < WORD && 8 <= base <= 16
      ensures text == Digits(num, base)
    {
      hide DigitChar;
      hide Digits;
      hide Quo;
      hide Rem;
      hide Converted;
      BufferSuffices(num, base);
      var buf := new char[NUMBER_BUF_SIZE];
      var x: int := NUMBER_BUF_SIZE - 1;
      buf[x] := '\0';
      x := x - 1;
      var xnum: nat := num;
      ghost var tail: string := "";
      var more := true;
      NothingConverted(num, base);
      while more
        invariant -1 <= x < NUMBER_BUF_SIZE - 1 && (more ==> x >= 0)
        invariant |tail| == NUMBER_BUF_SIZE - 2 - x && forall k :: 0 <= k < |tail| ==> buf[x + 1 + k] == tail[k]
        invariant Converted(num, base, more, xnum, tail)
        decreases more, xnum
      {
        ConvertedStep(num, base, xnum, tail);
        var c := DigitChar(Rem(xnum, base));
        buf[x] := c;
        ghost var tail0 := tail;
        tail := [c] + tail;
        assert forall k :: 0 < k < |tail| ==> tail[k] == tail0[k - 1];
        x := x - 1;
        xnum := Quo(xnum, base);
        more := xnum > 0;
      }
      x := x + 1;
      text := buf[x..NUMBER_BUF_SIZE - 1];
      assert text == tail;
      AllConverted(num, base, xnum, tail);
    }

    /** __pf_getnum */
    method GetNum(ch: char)
      requires Valid() && !sign
      modifies this`args, this`num, this`sign
      ensures Valid() && args == Others(old(args)) && num < WORD
      ensures var w := First(old(args)).num;
        if ch == 'd' && Signed(w) < 0 then sign && num == -Signed(w) else !sign && num == w
    {
      var arg := if args == [] then Arg(0, None) else args[0];
      args := if args == [] then [] else args[1..];
      num := arg.num;
      if ch == 'd' && num >= 0x8000_0000 {
        sign := true;
        num := WORD - num;
      }
    }

    /** __pf_setbase */
    method SetBase(ch: char)
      requires Valid() && IsInteger(ch) && !baseprefix
      modifies this`base, this`baseprefix
      ensures Valid() && base == BaseOf(ch) && baseprefix == (altformat || ch == 'p')
    {
      if ch == 'd' || ch == 'u' {
        base := 10;
      } else if ch == 'x' || ch == 'p' {
        base := 16;
      } else {
        base := 8;
      }
      if altformat || ch == 'p' {
        baseprefix := true;
      }
    }

    /** __pf_printnum */
    method PrintNum()
      requires Valid() && num < WORD && (base == 8 || base == 10 || base == 16)
      modifies this`charcount, snp, snp.buf
      ensures Valid() && snp.buf[snp.buflen..] == old(snp.buf[snp.buflen..])
      ensures snp.sent == old(snp.sent) + Field(F(), (if sign then "-" else "") +
        (if baseprefix && base == 16 then "0x" else if baseprefix && base == 8 then "0" else ""), Digits(num, base))
    {
      hide Field;
      hide Digits;
      var text := Convert();
      var bprefix := if baseprefix && base == 16 then "0x" else if baseprefix && base == 8 then "0" else "";
      var sprefix := if sign then "-" else "";
      PrintStuff(sprefix, bprefix, text);
    }

    /** An integer conversion of __pf_send. */
    method SendInteger(ch: char)
      requires Valid() && IsInteger(ch) && !sign && !baseprefix
      modifies this, snp, snp.buf
      ensures Valid() && F() == PLAIN && !sign && !baseprefix && args == Others(old(args))
      ensures snp.buf[snp.buflen..] == old(snp.buf[snp.buflen..])
      ensures snp.sent == old(snp.sent) + Number(old(F()), ch, First(old(args)).num)
    {
      hide Field;
      hide Digits;
      hide ArgsOk;
      ghost var f, w, sent := F(), First(args).num, snp.sent;
      GetNum(ch);
      SetBase(ch);
      PrintNum();
      NumberIs(f, ch, w);
      EndField();
    }

    /** __pf_send */
    method SendChar(ch: char)
      requires Valid() && !sign && !baseprefix
      modifies this, snp, snp.buf
      ensures Valid() && !sign && !baseprefix && snp.buf[snp.buflen..] == old(snp.buf[snp.buflen..])
      ensures snp.sent == old(snp.sent) + Emitted(old(F()), ch, old(args))
      ensures F() == FlagsAfter(old(F()), ch) && args == ArgsAfter(old(F()), ch, old(args))
    {
      hide Field;
      hide Number;
      hide Modify;
      assert "" + "" == "";
      if !inPct && ch != '%' {
        Print([ch]);
      } else if !inPct {
        inPct := true;
      } else if IsModifier(ch) {
        Modifier(ch);
      } else if IsInteger(ch) {
        SendInteger(ch);
      } else if ch == 's' {
        var arg := if args == [] then Arg(0, None) else args[0];
        args := if args == [] then [] else args[1..];
        PrintStuff("", "", if arg.str.None? then "(null)" else arg.str.value);
        EndField();
      } else {
        var x := [ch];
        if ch == 'c' {
          var arg := if args == [] then Arg(0, None) else args[0];
          args := if args == [] then [] else args[1..];
          x := if arg.num % 256 == 0 then "" else [(arg.num % 256) as char];
        }
        PrintStuff("", "", x);
        EndField();
      }
    }

    /** __vprintf */
    method Vprintf(fmt: string) returns (chars: nat)
      requires Valid() && !sign && !baseprefix && F() == PLAIN && snp.sent == ""
      modifies this, snp, snp.buf
      ensures snp.Valid() && snp.sent == Render(fmt, old(args), PLAIN) && chars == |snp.sent|
      ensures snp.buf[snp.buflen..] == old(snp.buf[snp.buflen..])
    {
      hide Emitted;
      hide FlagsAfter;
      hide ArgsAfter;
      hide Render;
      var i := 0;
      assert fmt[0..] == fmt;
      while i < |fmt|
        invariant 0 <= i <= |fmt| && Valid() && !sign && !baseprefix
        invariant snp.sent + Render(fmt[i..], args, F()) == Render(fmt, old(args), PLAIN)
        invariant snp.buf[snp.buflen..] == old(snp.buf[snp.buflen..])
      {
        assert fmt[i..][0] == fmt[i] && fmt[i..][1..] == fmt[i + 1..];
        RenderStep(fmt[i..], args, F());
        SendChar(fmt[i]);
        i := i + 1;
      }
      RenderNothing(args, F());
      assert fmt[i..] == "" && snp.sent + "" == snp.sent;
      chars := charcount;
    }
  }

  /** vsnprintf: the longest prefix of the text that fits, a NUL, and the length of the whole text. */
  method Vsnprintf(buf: array<char>, len: nat, fmt: string, args: seq<Arg>) returns (chars: nat)
    requires len <= buf.Length && ArgsOk(args)
    modifies buf
    ensures chars == |Render(fmt, args, PLAIN)|
    ensures len > 0 ==> var k := if chars < len then chars else len - 1;
      buf[..k] == Render(fmt, args, PLAIN)[..k] && buf[k] == '\0'
    ensures buf[len..] == old(buf[len..])
  {
    var snp := new Snp(buf, len);
    var pf := new Pf(snp, args);
    chars := pf.Vprintf(fmt);
    if len > 0 {
      ghost var k := snp.bufpos;
      assert buf[len..] == buf[len - 1..][1..];
      buf[snp.bufpos] := '\0';
    }
  }

  lemma DigitsStep(n: nat, base: nat, tail: string)
    requires 2 <= base <= 16
    ensures if n >= base then Digits(n, base) + tail == Digits(Quo(n, base), base) + ([DigitChar(Rem(n, base))] + tail)
            else Digits(n, base) + tail == [DigitChar(Rem(n, base))] + tail
  {
    hide DigitChar;
    hide Quo;
    hide Rem;
    if n >= base {
      assert Digits(n, base) == Digits(Quo(n, base), base) + [DigitChar(Rem(n, base))];
    }
  }

  /** tail are the digits written so far, and xnum is what is left to write. */
  ghost predicate Converted(num: nat, base: nat, more: bool, xnum: nat, tail: string)
    requires 2 <= base <= 16
  {
    Digits(num, base) == if more then Digits(xnum, base) + tail else tail
  }

  lemma NothingConverted(num: nat, base: nat)
    requires 2 <= base <= 16
    ensures Converted(num, base, true, num, "") && |Digits(num, base)| > 0
  {
    hide Digits;
  }

  lemma ConvertedStep(num: nat, base: nat, xnum: nat, tail: string)
    requires 2 <= base <= 16 && Converted(num, base, true, xnum, tail)
    ensures Converted(num, base, Quo(xnum, base) > 0, Quo(xnum, base), [DigitChar(Rem(xnum, base))] + tail)
    ensures |tail| + (if Quo(xnum, base) > 0 then 2 else 1) <= |Digits(num, base)|
  {
    hide DigitChar;
    hide Digits;
    hide Quo;
    hide Rem;
    DigitsStep(xnum, base, tail);
  }

  lemma AllConverted(num: nat, base: nat, xnum: nat, tail: string)
    requires 2 <= base <= 16 && Converted(num, base, false, xnum, tail)
    ensures tail == Digits(num, base)
  {
  }

  lemma NumberIs(f: Flags, ch: char, w: nat)
    requires w < WORD && IsInteger(ch)
    ensures var neg := ch == 'd' && Signed(w) < 0;
      var ds := Digits(if neg then -Signed(w) else w, BaseOf(ch));
      Number(f, ch, w) == Field(f, (if neg then "-" else "") + Prefix(f, ch), ds)
  {
    hide Field;
    hide Digits;
    assert "" + Prefix(f, ch) == Prefix(f, ch);
  }

  /** The three places for padding. */
  function Fore(f: Flags, pad: nat): string {
    if !f.left && !f.zero then Repeat(' ', pad) else ""
  }

  function Middle(f: Flags, pad: nat): string {
    if !f.left && f.zero then Repeat('0', pad) else ""
  }

  function Aft(f: Flags, pad: nat): string {
    if f.left then Repeat(if f.zero then '0' else ' ', pad) else ""
  }

  lemma NoPadding(c: char)
    ensures Repeat(c, 0) == ""
  {
  }

  lemma FieldIs(sent: string, f: Flags, prefix: string, prefix2: string, stuff: string)
    ensures var pad := Padding(f, |prefix + prefix2| + |stuff|);
      sent + Fore(f, pad) + prefix + prefix2 + Middle(f, pad) + stuff + Aft(f, pad)
      == sent + Field(f, prefix + prefix2, stuff)
  {
    hide Repeat;
    var pad := Padding(f, |prefix + prefix2| + |stuff|);
    var x := Repeat(' ', pad);
    var y := Repeat('0', pad);
    if f.left {
      assert sent + "" + prefix + prefix2 + "" + stuff + Aft(f, pad) == sent + (prefix + prefix2 + stuff + Aft(f, pad));
    } else if f.zero {
      assert sent + "" + prefix + prefix2 + y + stuff + "" == sent + (prefix + prefix2 + y + stuff);
    } else {
      assert sent + x + prefix + prefix2 + "" + stuff + "" == sent + (x + (prefix + prefix2) + stuff);
    }
  }
}
