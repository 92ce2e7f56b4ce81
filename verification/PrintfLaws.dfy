/** What the formats of lib/libc/__printf.c mean, said without the machine that prints them. */
module PrintfLaws {
  import opened Options
  import opened Printf

  // ------------------------------------------------------------------ numerals

  /** The value of a digit, in bases up to 16. */
  function DigitOf(c: char): Option<nat> {
    if '0' <= c <= '9' then Some(c as int - '0' as int)
    else if 'a' <= c <= 'f' then Some(10 + (c as int - 'a' as int))
    else None
  }

  /** ds is a numeral in the given base, without zeros in front. */
  predicate Numeral(ds: string, base: nat) {
    && ds != [] && (ds[0] == '0' ==> |ds| == 1)
    && forall i :: 0 <= i < |ds| ==> DigitOf(ds[i]).Some? && DigitOf(ds[i]).value < base
  }

  /** The number a string of digits denotes. */
  function NumberIn(ds: string, base: nat): nat {
    if ds == [] then 0
    else
      var d := DigitOf(ds[|ds| - 1]);
      base * NumberIn(ds[..|ds| - 1], base) + if d.Some? then d.value else 0
  }

  lemma DigitCharOf(d: nat)
    requires d < 16
    ensures DigitOf(DigitChar(d)) == Some(d) && (DigitChar(d) == '0' <==> d == 0)
  {
  }

  /** The digits printed are the numeral of the number. */
  lemma {:induction false} DigitsRead(n: nat, base: nat)
    requires 2 <= base <= 16
    ensures Numeral(Digits(n, base), base) && NumberIn(Digits(n, base), base) == n
    ensures Digits(n, base)[0] == '0' <==> n == 0
    decreases n
  {
    hide DigitChar;
    hide DigitOf;
    hide Quo;
    hide Rem;
    var d := Rem(n, base);
    DigitCharOf(d);
    if n < base {
      NumeralMore("", base, DigitChar(d), d);
      assert "" + [DigitChar(d)] == [DigitChar(d)];
    } else {
      var q := Quo(n, base);
      QuoRem(n, base);
      DigitsRead(q, base);
      NumeralMore(Digits(q, base), base, DigitChar(d), d);
    }
  }

  lemma QuoRem(n: nat, b: nat)
    requires b >= 2
    ensures n == b * Quo(n, b) + Rem(n, b)
  {
  }

  lemma NumeralMore(ds: string, base: nat, c: char, d: nat)
    requires DigitOf(c) == Some(d) && d < base && (ds == [] || (Numeral(ds, base) && ds[0] != '0'))
    ensures Numeral(ds + [c], base) && NumberIn(ds + [c], base) == base * NumberIn(ds, base) + d
  {
    hide DigitOf;
    assert (ds + [c])[..|ds|] == ds;
    assert NumberIn("", base) == 0;
  }

  // -------------------------------------------------------------------- fields

  /** Text padded to a width: the padding is one character, and it is in front, between prefix and rest, or behind. */
  predicate PaddedTo(s: string, width: nat, left: bool, zero: bool, prefix: string, stuff: string) {
    var text := prefix + stuff;
    var pad := if width > |text| then width - |text| else 0;
    && |s| == |text| + pad
    && (if left then s[..|text|] == text && forall i :: |text| <= i < |s| ==> s[i] == if zero then '0' else ' '
        else if zero then
          && s[..|prefix|] == prefix && s[|s| - |stuff|..] == stuff
          && forall i :: |prefix| <= i < |s| - |stuff| ==> s[i] == '0'
        else s[pad..] == text && forall i :: 0 <= i < pad ==> s[i] == ' ')
  }

  lemma FieldPadded(f: Flags, prefix: string, stuff: string)
    ensures PaddedTo(Field(f, prefix, stuff), f.spacing, f.left, f.zero, prefix, stuff)
  {
    hide Repeat;
    var text := prefix + stuff;
    var pad := Padding(f, |prefix| + |stuff|);
    var s := Field(f, prefix, stuff);
    if f.left {
      Joined(text, Repeat(if f.zero then '0' else ' ', pad));
    } else if f.zero {
      Joined(prefix + Repeat('0', pad), stuff);
      Joined(prefix, Repeat('0', pad));
      assert s[..|prefix|] == (prefix + Repeat('0', pad))[..|prefix|];
    } else {
      assert s == Repeat(' ', pad) + text;
      Joined(Repeat(' ', pad), text);
    }
  }

  lemma Joined(a: string, b: string)
    ensures (a + b)[..|a|] == a && (a + b)[|a|..] == b
  {
  }

  /** A string argument prints as itself, a NULL one as (null). */
  lemma ShowsString(f: Flags, arg: Arg)
    requires arg.num < WORD
    ensures PaddedTo(Conversion(f, 's', arg), f.spacing, f.left, f.zero, "",
                     if arg.str.Some? then arg.str.value else "(null)")
  {
    hide Field;
    FieldPadded(f, "", if arg.str.None? then "(null)" else arg.str.value);
  }

  /** A character argument prints as itself, and a NUL as nothing. */
  lemma ShowsChar(f: Flags, arg: Arg)
    requires arg.num < WORD
    ensures PaddedTo(Conversion(f, 'c', arg), f.spacing, f.left, f.zero, "",
                     if arg.num % 256 == 0 then "" else [(arg.num % 256) as char])
  {
    hide Field;
    FieldPadded(f, "", if arg.num % 256 == 0 then "" else [(arg.num % 256) as char]);
  }

  /** Any other letter, % among them, prints as itself. */
  lemma ShowsLetter(f: Flags, ch: char, arg: Arg)
    requires arg.num < WORD && ch !in "doupxsc"
    ensures PaddedTo(Conversion(f, ch, arg), f.spacing, f.left, f.zero, "", [ch])
  {
    hide Field;
    FieldPadded(f, "", [ch]);
  }

  /** s is the numeral of n in the given base, after a prefix, padded as the flags say. */
  ghost predicate ShowsNumber(s: string, f: Flags, prefix: string, base: nat, n: nat) {
    exists ds ::
      Numeral(ds, base) && NumberIn(ds, base) == n && PaddedTo(s, f.spacing, f.left, f.zero, prefix, ds)
  }

  lemma ShowsField(f: Flags, prefix: string, base: nat, n: nat)
    requires 2 <= base <= 16
    ensures ShowsNumber(Field(f, prefix, Digits(n, base)), f, prefix, base, n)
  {
    hide Digits;
    DigitsRead(n, base);
    FieldPadded(f, prefix, Digits(n, base));
  }

  /** %d prints the signed value in decimal, with a minus if it is negative. */
  lemma ShowsSigned(f: Flags, arg: Arg)
    requires arg.num < WORD
    ensures var n := if arg.num < 0x8000_0000 then arg.num else arg.num - WORD;
      ShowsNumber(Conversion(f, 'd', arg), f, if n < 0 then "-" else "", 10, if n < 0 then -n else n)
  {
    hide Field;
    hide Digits;
    hide ShowsNumber;
    var w := arg.num;
    NumberIs(f, 'd', w);
    assert "-" + "" == "-" && "" + "" == "";
    ShowsField(f, if Signed(w) < 0 then "-" else "", 10, if Signed(w) < 0 then -Signed(w) else w);
  }

  /** %u, %x, %o and %p print the unsigned value in decimal, hexadecimal, octal and hexadecimal; a # puts 0x or 0 in
      front of the last three, and %p has its 0x always. */
  lemma ShowsUnsigned(f: Flags, ch: char, arg: Arg)
    requires arg.num < WORD && ch in "uxop"
    ensures ShowsNumber(Conversion(f, ch, arg), f,
                        if ch == 'p' || (ch == 'x' && f.alt) then "0x" else if ch == 'o' && f.alt then "0" else "",
                        if ch == 'u' then 10 else if ch == 'o' then 8 else 16, arg.num)
  {
    hide Field;
    hide Digits;
    hide ShowsNumber;
    ShowsField(f, Prefix(f, ch), BaseOf(ch), arg.num);
  }

  // ------------------------------------------------------------------- formats

  /** Plain text is printed as it is. */
  lemma {:induction false} PlainText(fmt: string, args: seq<Arg>)
    requires ArgsOk(args) && '%' !in fmt
    ensures Render(fmt, args, PLAIN) == fmt
  {
    hide Conversion;
    if fmt != [] {
      PlainText(fmt[1..], args);
      assert [fmt[0]] + fmt[1..] == fmt;
    }
  }

  /** The flags and the arguments after a format. */
  function FlagsLeft(fmt: string, f: Flags): Flags {
    if fmt == [] then f else FlagsLeft(fmt[1..], FlagsAfter(f, fmt[0]))
  }

  function ArgsLeft(fmt: string, args: seq<Arg>, f: Flags): seq<Arg> {
    if fmt == [] then args else ArgsLeft(fmt[1..], ArgsAfter(f, fmt[0], args), FlagsAfter(f, fmt[0]))
  }

  lemma {:induction false} ArgsLeftOk(fmt: string, args: seq<Arg>, f: Flags)
    requires ArgsOk(args)
    ensures ArgsOk(ArgsLeft(fmt, args, f))
  {
    if fmt != [] {
      ArgsLeftOk(fmt[1..], ArgsAfter(f, fmt[0], args), FlagsAfter(f, fmt[0]));
    }
  }

  /** A format in two parts is printed one part after the other. */
  lemma {:induction false} RenderParts(fmt: string, more: string, args: seq<Arg>, f: Flags)
    requires ArgsOk(args)
    ensures ArgsOk(ArgsLeft(fmt, args, f))
    ensures Render(fmt + more, args, f)
      == Render(fmt, args, f) + Render(more, ArgsLeft(fmt, args, f), FlagsLeft(fmt, f))
  {
    hide Emitted;
    hide FlagsAfter;
    hide ArgsAfter;
    hide Render;
    ArgsLeftOk(fmt, args, f);
    if fmt == [] {
      RenderNothing(args, f);
      assert fmt + more == more;
      assert "" + Render(more, args, f) == Render(more, args, f);
    } else {
      var f', args' := FlagsAfter(f, fmt[0]), ArgsAfter(f, fmt[0], args);
      assert (fmt + more)[0] == fmt[0] && (fmt + more)[1..] == fmt[1..] + more;
      RenderStep(fmt + more, args, f);
      RenderStep(fmt, args, f);
      RenderParts(fmt[1..], more, args', f');
    }
  }

  /** A directive: the flags, a width and what comes after them. */
  function Ask(f: Flags, end: string): string {
    "%" + ((if f.left then "-" else "") + ((if f.alt then "#" else "")
      + ((if f.zero then "0" else "") + ((if f.spacing > 0 then Digits(f.spacing, 10) else "") + end))))
  }

  lemma RenderFlag(on: bool, c: char, rest: string, args: seq<Arg>, f: Flags)
    requires f.inPct && ArgsOk(args) && IsModifier(c)
    ensures Render((if on then [c] else "") + rest, args, f) == Render(rest, args, if on then Modify(f, c) else f)
  {
    hide Modify;
    hide IsModifier;
    hide Conversion;
    if on {
      assert ([c] + rest)[1..] == rest;
    } else {
      assert "" + rest == rest;
    }
  }

  /** The digits of a width are read as that width. */
  lemma {:induction false} RenderWidth(n: nat, rest: string, args: seq<Arg>, f: Flags)
    requires f.inPct && f.spacing == 0 && n > 0 && ArgsOk(args)
    ensures Render(Digits(n, 10) + rest, args, f) == Render(rest, args, f.(spacing := n))
    decreases n
  {
    hide Conversion;
    hide Render;
    hide Quo;
    hide Rem;
    var c := DigitChar(Rem(n, 10));
    DigitModifier(Rem(n, 10));
    if n < 10 {
      RenderFlag(true, c, rest, args, f);
    } else {
      var q := Quo(n, 10);
      RenderWidth(q, [c] + rest, args, f);
      assert Digits(n, 10) + rest == Digits(q, 10) + ([c] + rest);
      RenderFlag(true, c, rest, args, f.(spacing := q));
      DivideTen(n);
    }
  }

  lemma DigitModifier(d: nat)
    requires d < 10
    ensures IsModifier(DigitChar(d)) && IsDigit(DigitChar(d))
    ensures DigitValue(DigitChar(d)) == d && (DigitChar(d) == '0' <==> d == 0)
  {
  }

  lemma DivideTen(n: nat)
    ensures n == Quo(n, 10) * 10 + Rem(n, 10)
  {
  }

  lemma RenderPercent(rest: string, args: seq<Arg>)
    requires ArgsOk(args)
    ensures Render("%" + rest, args, PLAIN) == Render(rest, args, PLAIN.(inPct := true))
  {
    hide Conversion;
    assert ("%" + rest)[1..] == rest;
  }

  lemma RenderEnd(ch: char, rest: string, args: seq<Arg>, f: Flags)
    requires f.inPct && ArgsOk(args) && !IsModifier(ch)
    ensures ArgsOk(Others(args))
    ensures Render([ch] + rest, args, f)
      == Conversion(f, ch, First(args)) + Render(rest, if TakesArg(ch) then Others(args) else args, PLAIN)
  {
    hide Conversion;
    hide IsModifier;
    hide TakesArg;
    assert ([ch] + rest)[1..] == rest;
  }

  /** A directive prints its conversion, with the flags and the width asked for. */
  lemma DirectiveRenders(f: Flags, longs: nat, ch: char, rest: string, args: seq<Arg>)
    requires f.inPct && ArgsOk(args) && !IsModifier(ch)
    ensures ArgsOk(Others(args))
    ensures Render(Ask(f, Repeat('l', longs) + ([ch] + rest)), args, PLAIN)
      == Conversion(f, ch, First(args)) + Render(rest, if TakesArg(ch) then Others(args) else args, PLAIN)
  {
    hide Ask;
    hide Render;
    hide Conversion;
    hide IsModifier;
    hide TakesArg;
    AskRenders(f, Repeat('l', longs) + ([ch] + rest), args);
    LongsRender(longs, [ch] + rest, args, f);
    RenderEnd(ch, rest, args, f);
  }

  /** int and long have the same size. */
  lemma {:induction false} LongsRender(longs: nat, rest: string, args: seq<Arg>, f: Flags)
    requires f.inPct && ArgsOk(args)
    ensures Render(Repeat('l', longs) + rest, args, f) == Render(rest, args, f)
  {
    hide Render;
    if longs == 0 {
      assert Repeat('l', 0) + rest == rest;
    } else {
      assert Repeat('l', longs) + rest == ['l'] + (Repeat('l', longs - 1) + rest);
      RenderFlag(true, 'l', Repeat('l', longs - 1) + rest, args, f);
      LongsRender(longs - 1, rest, args, f);
    }
  }

  lemma AskRenders(f: Flags, end: string, args: seq<Arg>)
    requires f.inPct && ArgsOk(args)
    ensures Render(Ask(f, end), args, PLAIN) == Render(end, args, f)
  {
    hide Digits;
    hide Render;
    hide IsModifier;
    var width := (if f.spacing > 0 then Digits(f.spacing, 10) else "") + end;
    var zero := (if f.zero then "0" else "") + width;
    var alt := (if f.alt then "#" else "") + zero;
    var left := (if f.left then "-" else "") + alt;
    var f1 := PLAIN.(inPct := true);
    var f2 := f1.(left := f.left);
    var f3 := f2.(alt := f.alt);
    var f4 := f3.(zero := f.zero);
    FlagModifiers(f1, f2, f3);
    hide Modify;
    RenderPercent(left, args);
    RenderFlag(f.left, '-', alt, args, f1);
    RenderFlag(f.alt, '#', zero, args, f2);
    RenderFlag(f.zero, '0', width, args, f3);
    if f.spacing > 0 {
      RenderWidth(f.spacing, end, args, f4);
    } else {
      assert width == end;
    }
  }

  lemma FlagModifiers(f1: Flags, f2: Flags, f3: Flags)
    requires f3.spacing == 0
    ensures IsModifier('-') && Modify(f1, '-') == f1.(left := true)
    ensures IsModifier('#') && Modify(f2, '#') == f2.(alt := true)
    ensures IsModifier('0') && Modify(f3, '0') == f3.(zero := true)
  {
  }

  // ------------------------------------------------------------ whole formats

  /** A piece of a format, with its argument: text without a %, or a directive with any number of l in it. */
  datatype Piece = Say(text: string) | Show(f: Flags, longs: nat, ch: char, arg: Arg)

  predicate PieceOk(p: Piece) {
    if p.Say? then '%' !in p.text else p.f.inPct && !IsModifier(p.ch) && p.arg.num < WORD
  }

  predicate PiecesOk(ps: seq<Piece>) {
    forall i :: 0 <= i < |ps| ==> PieceOk(ps[i])
  }

  function FormatOf(ps: seq<Piece>): string {
    if ps == [] then ""
    else if ps[0].Say? then ps[0].text + FormatOf(ps[1..])
    else Ask(ps[0].f, Repeat('l', ps[0].longs) + ([ps[0].ch] + FormatOf(ps[1..])))
  }

  function ArgsFor(ps: seq<Piece>): seq<Arg> {
    if ps == [] then []
    else (if ps[0].Show? && TakesArg(ps[0].ch) then [ps[0].arg] else []) + ArgsFor(ps[1..])
  }

  /** What the pieces print: text as it is, and each directive as the laws above say. */
  function Shown(ps: seq<Piece>): string
    requires PiecesOk(ps)
  {
    if ps == [] then ""
    else (if ps[0].Say? then ps[0].text else Conversion(ps[0].f, ps[0].ch, ps[0].arg)) + Shown(ps[1..])
  }

  lemma {:induction false} ArgsForOk(ps: seq<Piece>)
    requires PiecesOk(ps)
    ensures ArgsOk(ArgsFor(ps))
  {
    if ps != [] {
      assert PieceOk(ps[0]);
      ArgsForOk(ps[1..]);
    }
  }

  /** A letter that takes no argument prints the same whatever argument comes next. */
  lemma NoArgument(f: Flags, ch: char, arg: Arg, other: Arg)
    requires arg.num < WORD && other.num < WORD && !TakesArg(ch)
    ensures Conversion(f, ch, arg) == Conversion(f, ch, other)
  {
    hide Field;
  }

  /** Any format prints its pieces in order, each with its own argument. */
  lemma {:induction false} FormatRenders(ps: seq<Piece>)
    requires PiecesOk(ps)
    ensures ArgsOk(ArgsFor(ps)) && Render(FormatOf(ps), ArgsFor(ps), PLAIN) == Shown(ps)
  {
    hide Render;
    hide Conversion;
    hide TakesArg;
    hide IsModifier;
    hide Ask;
    ArgsForOk(ps);
    if ps == [] {
      RenderNothing([], PLAIN);
    } else {
      var p, rest, args := ps[0], ps[1..], ArgsFor(ps);
      assert PieceOk(p);
      FormatRenders(rest);
      if p.Say? {
        assert args == ArgsFor(rest);
        PlainText(p.text, args);
        PlainLeft(p.text, args);
        RenderParts(p.text, FormatOf(rest), args, PLAIN);
      } else {
        DirectiveRenders(p.f, p.longs, p.ch, FormatOf(rest), args);
        if TakesArg(p.ch) {
          assert args[0] == p.arg && args[1..] == ArgsFor(rest);
        } else {
          assert args == ArgsFor(rest);
          NoArgument(p.f, p.ch, First(args), p.arg);
        }
      }
    }
  }

  lemma {:induction false} PlainLeft(text: string, args: seq<Arg>)
    requires '%' !in text
    ensures FlagsLeft(text, PLAIN) == PLAIN && ArgsLeft(text, args, PLAIN) == args
  {
    if text != [] {
      PlainLeft(text[1..], args);
    }
  }

  /** Printing any format into a buffer: the longest prefix of its text that fits, and the length of all of it. */
  method Print(buf: array<char>, len: nat, ps: seq<Piece>) returns (chars: nat)
    requires len <= buf.Length && PiecesOk(ps)
    modifies buf
    ensures chars == |Shown(ps)|
    ensures len > 0 ==> var k := if chars < len then chars else len - 1;
      buf[..k] == Shown(ps)[..k] && buf[k] == '\0'
    ensures buf[len..] == old(buf[len..])
  {
    FormatRenders(ps);
    chars := Vsnprintf(buf, len, FormatOf(ps), ArgsFor(ps));
  }
}
