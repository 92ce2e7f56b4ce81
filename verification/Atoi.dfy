/** lib/libc/atoi.c, and what it makes of the numbers printf writes. */
module Atoi {
  import opened Options
  import opened Printf
  import opened PrintfLaws

  predicate Blank(c: char) {
    c == ' ' || c == '\t'
  }

  function SkipBlanks(s: string): string {
    if s != [] && Blank(s[0]) then SkipBlanks(s[1..]) else s
  }

  /** The digits at the front of s. */
  function Leading(s: string): (ds: string)
    ensures AllDigits(ds)
  {
    if s == [] || !IsDigit(s[0]) then "" else [s[0]] + Leading(s[1..])
  }

  predicate HasSign(s: string) {
    s != [] && (s[0] == '-' || s[0] == '+')
  }

  /** The number a string denotes: blanks, a sign, digits; the value wraps at 32 bits. */
  function Read(s: string): int {
    var t := SkipBlanks(s);
    var ds := Leading(if HasSign(t) then t[1..] else t);
    Signed(Wrap(Negated(t != [] && t[0] == '-', Value(ds))))
  }

  function Negated(neg: bool, v: nat): int {
    if neg then 0 - v else v
  }

  function Wrap(x: int): (w: nat)
    ensures w < WORD
  {
    x % WORD
  }

  lemma WrapStep(v: int, d: int)
    ensures Wrap(Wrap(v) * 10 + d) == Wrap(10 * v + d)
  {
    var q := v / WORD;
    assert v == WORD * q + v % WORD;
    WrapShift((v % WORD) * 10 + d, 10 * q);
  }

  lemma WrapShift(x: int, k: int)
    ensures Wrap(x + WORD * k) == Wrap(x)
  {
    var q, r := x / WORD, x % WORD;
    assert x + WORD * k == WORD * (q + k) + r;
  }

  lemma WrapNegate(v: nat)
    ensures Wrap(Negated(true, Wrap(v))) == Wrap(Negated(true, v))
  {
    assert v == WORD * (v / WORD) + v % WORD;
    WrapShift(0 - v, v / WORD);
  }

  /** atoi */
  method Atoi(s: string) returns (r: int)
    ensures r == Read(s)
  {
    hide Wrap;
    var i := 0;
    assert s[0..] == s;
    while i < |s| && Blank(s[i])
      invariant 0 <= i <= |s| && SkipBlanks(s) == SkipBlanks(s[i..])
    {
      assert s[i..][1..] == s[i + 1..];
      i := i + 1;
    }
    ghost var t := s[i..];
    assert SkipBlanks(s) == t;
    var neg := false;
    if i < |s| && s[i] == '-' {
      neg := true;
      i := i + 1;
    } else if i < |s| && s[i] == '+' {
      i := i + 1;
    }
    ghost var u := s[i..];
    assert u == if HasSign(t) then t[1..] else t;
    var val := ReadDigits(s, i);
    WrapNegate(Value(Leading(u)));
    r := Signed(if neg then Wrap(Negated(true, val)) else val);
  }

  /** The digit loop of atoi, on unsigned 32-bit numbers. */
  method ReadDigits(s: string, start: nat) returns (val: nat)
    requires start <= |s|
    ensures val == Wrap(Value(Leading(s[start..])))
  {
    hide Wrap;
    hide Value;
    hide Leading;
    val := 0;
    WrapZero();
    ghost var done: string := "";
    var i := start;
    assert "" + Leading(s[start..]) == Leading(s[start..]);
    while i < |s| && IsDigit(s[i])
      invariant start <= i <= |s| && AllDigits(done) && val == Wrap(Value(done))
      invariant Leading(s[start..]) == done + Leading(s[i..])
    {
      LeadingStep(s, i, done);
      ValueSnoc(done, s[i]);
      WrapStep(Value(done), DigitValue(s[i]));
      val := Wrap(val * 10 + DigitValue(s[i]));
      done := done + [s[i]];
      i := i + 1;
    }
    LeadingNone(s[i..]);
    assert done + "" == done;
  }

  lemma ValueSnoc(ds: string, c: char)
    requires AllDigits(ds) && IsDigit(c)
    ensures AllDigits(ds + [c]) && Value(ds + [c]) == 10 * Value(ds) + DigitValue(c)
  {
    assert (ds + [c])[..|ds|] == ds;
  }

  lemma LeadingStep(s: string, i: nat, done: string)
    requires i < |s| && IsDigit(s[i])
    ensures done + Leading(s[i..]) == done + [s[i]] + Leading(s[i + 1..])
  {
    assert s[i..][0] == s[i] && s[i..][1..] == s[i + 1..];
  }

  lemma LeadingNone(s: string)
    requires s == [] || !IsDigit(s[0])
    ensures Leading(s) == ""
  {
  }

  lemma WrapZero()
    ensures Wrap(Value("")) == 0
  {
  }

  // -------------------------------------------------------------- round trip

  lemma {:induction false} SkipSpaces(blanks: string, s: string)
    requires (forall i :: 0 <= i < |blanks| ==> Blank(blanks[i])) && (s == [] || !Blank(s[0]))
    ensures SkipBlanks(blanks + s) == s
  {
    if blanks == [] {
      assert blanks + s == s;
    } else {
      assert (blanks + s)[0] == blanks[0] && (blanks + s)[1..] == blanks[1..] + s;
      SkipSpaces(blanks[1..], s);
    }
  }

  lemma {:induction false} LeadingStops(ds: string, tail: string)
    requires AllDigits(ds) && (tail == [] || !IsDigit(tail[0]))
    ensures Leading(ds + tail) == ds
  {
    if ds == [] {
      assert ds + tail == tail;
    } else {
      assert (ds + tail)[1..] == ds[1..] + tail;
      LeadingStops(ds[1..], tail);
      assert [ds[0]] + ds[1..] == ds;
    }
  }

  /** Spaces and tabs, a sign or none, digits and whatever follows: atoi reads the digits. */
  lemma ReadNumber(blanks: string, sign: string, ds: string, tail: string)
    requires forall i :: 0 <= i < |blanks| ==> blanks[i] == ' ' || blanks[i] == '\t'
    requires (sign == "" || sign == "-" || sign == "+") && AllDigits(ds) && ds != []
    requires tail == [] || !('0' <= tail[0] <= '9')
    ensures Read(blanks + (sign + ds + tail)) == Signed(Wrap(Negated(sign == "-", Value(ds))))
  {
    hide Wrap;
    hide Value;
    var body := sign + ds + tail;
    assert body[0] == if sign == "" then ds[0] else sign[0];
    SkipSpaces(blanks, body);
    LeadingStops(ds, tail);
    if sign == "" {
      assert body == ds + tail;
    } else {
      assert body[1..] == ds + tail;
    }
  }

  /** Without a digit after blanks and sign atoi reads 0. */
  lemma ReadNothing(blanks: string, sign: string, tail: string)
    requires forall i :: 0 <= i < |blanks| ==> blanks[i] == ' ' || blanks[i] == '\t'
    requires (sign == "" || sign == "-" || sign == "+") && (tail == [] || !('0' <= tail[0] <= '9'))
    requires sign == "" && tail != [] ==> tail[0] !in " \t-+"
    ensures Read(blanks + (sign + tail)) == 0
  {
    var body := sign + tail;
    SkipSpaces(blanks, body);
    if sign == "" {
      assert body == tail;
    } else {
      assert body[0] == sign[0] && body[1..] == tail;
    }
    LeadingNone(tail);
  }

  lemma {:induction false} LeadingZeros(k: nat, ds: string)
    requires AllDigits(ds)
    ensures AllDigits(Repeat('0', k) + ds) && Value(Repeat('0', k) + ds) == Value(ds)
    decreases |ds|, k
  {
    var s := Repeat('0', k) + ds;
    if ds != [] {
      assert s[..|s| - 1] == Repeat('0', k) + ds[..|ds| - 1];
      LeadingZeros(k, ds[..|ds| - 1]);
    } else if k > 0 {
      assert s[..|s| - 1] == Repeat('0', k - 1) + ds;
      LeadingZeros(k - 1, ds);
    }
  }

  lemma {:induction false} TrailingZeros(ds: string, k: nat)
    requires AllDigits(ds)
    ensures AllDigits(ds + Repeat('0', k)) && Value(ds + Repeat('0', k)) == Value(ds) * Power(10, k)
  {
    hide Value;
    var s := ds + Repeat('0', k);
    if k == 0 {
      assert s == ds;
    } else {
      var t := ds + Repeat('0', k - 1);
      assert s == t + ['0'];
      TrailingZeros(ds, k - 1);
      ValueSnoc(t, '0');
      Regroup(Value(ds), Power(10, k - 1));
    }
  }

  lemma Regroup(v: nat, p: nat)
    ensures 10 * (v * p) == v * (10 * p)
  {
  }

  /** The flags of a %d that print n so that it is not read back: padding with zeros behind the digits. */
  predicate Spoiled(f: Flags, n: int) {
    f.left && f.zero && n != 0
    && Padding(f, (if n < 0 then 1 else 0) + |Digits(Magnitude(n), 10)|) > 0
  }

  predicate Int32(n: int) {
    -0x8000_0000 <= n < 0x8000_0000
  }

  /** atoi of a printed number is the number, for every field width and every flags but '-' with '0'; and with
      those, only if no padding is needed or the number is 0. */
  lemma RoundTrip(n: int, f: Flags)
    requires Int32(n)
    ensures Read(Number(f, 'd', Wrap(n))) == n <==> !Spoiled(f, n)
  {
    hide Digits;
    hide Value;
    hide Read;
    hide Repeat;
    hide Field;
    hide Wrap;
    hide Body;
    hide Blanks;
    hide Tail;
    var neg, m, ds := n < 0, Magnitude(n), Digits(Magnitude(n), 10);
    var sign := if neg then "-" else "";
    var pad := Padding(f, |sign| + |ds|);
    WordOf(n);
    DigitsValue(m);
    assert sign + "" == sign;
    assert Number(f, 'd', Wrap(n)) == Field(f, sign, ds);
    FieldText(f, sign, ds);
    BodyValue(f, ds, pad);
    ReadNumber(Repeat(' ', Blanks(f, pad)), sign, Body(f, ds, pad), Tail(f, pad));
    if f.left && f.zero {
      Shifted(n, pad);
    }
  }

  /** 5 printed with %-05d is read as 50000. */
  lemma ZerosBehind()
    ensures var f := Flags(false, 5, true, true, false);
      Spoiled(f, 5) && Number(f, 'd', 5) == "50000" && Read("50000") == 50000
  {
    var f := Flags(false, 5, true, true, false);
    assert Digits(5, 10) == "5";
    FourZeros();
    assert Number(f, 'd', 5) == "5" + Repeat('0', 4);
    assert AllDigits("50000");
    assert "" + ("" + "50000" + "") == "50000";
    ReadNumber("", "", "50000", "");
  }

  lemma FourZeros()
    ensures "5" + Repeat('0', 4) == "50000" && Value("50000") == 50000
  {
    assert Repeat('0', 4) == "0000";
    TrailingZeros("5", 4);
    assert Value("5") == 5;
    assert Power(10, 4) == 10 * Power(10, 3) == 10000;
  }

  /** A field as atoi sees it: blanks, a sign, digits, and what follows them. */
  function Blanks(f: Flags, pad: nat): nat {
    if f.left || f.zero then 0 else pad
  }

  function Body(f: Flags, ds: string, pad: nat): string {
    if f.left && f.zero then ds + Repeat('0', pad) else if f.zero then Repeat('0', pad) + ds else ds
  }

  function Tail(f: Flags, pad: nat): string {
    if f.left && !f.zero then Repeat(' ', pad) else ""
  }

  lemma FieldText(f: Flags, sign: string, ds: string)
    ensures var pad := Padding(f, |sign| + |ds|);
      Field(f, sign, ds) == Repeat(' ', Blanks(f, pad)) + (sign + Body(f, ds, pad) + Tail(f, pad))
  {
    hide Repeat;
    NoPadding(' ');
  }

  lemma BodyValue(f: Flags, ds: string, pad: nat)
    requires AllDigits(ds) && ds != []
    ensures AllDigits(Body(f, ds, pad)) && Body(f, ds, pad) != []
    ensures Value(Body(f, ds, pad)) == if f.left && f.zero then Value(ds) * Power(10, pad) else Value(ds)
    ensures Tail(f, pad) == [] || !IsDigit(Tail(f, pad)[0])
  {
    hide Value;
    TrailingZeros(ds, pad);
    LeadingZeros(pad, ds);
  }

  lemma WordOf(n: int)
    requires Int32(n)
    ensures Signed(Wrap(n)) == n && Signed(Wrap(Negated(n < 0, Magnitude(n)))) == n && (n >= 0 ==> Wrap(n) == n)
  {
  }

  /** Zeros behind the digits give another 32-bit number, unless there are none or the number is 0. */
  lemma Shifted(n: int, k: nat)
    requires Int32(n)
    ensures Signed(Wrap(Negated(n < 0, Magnitude(n) * Power(10, k)))) == n <==> k == 0 || n == 0
  {
    hide Power;
    var m, c := Magnitude(n), Power(10, k);
    if k == 0 || n == 0 {
      WordOf(n);
      assert c == 1 || m == 0 by {
        PowerZero();
      }
    } else {
      PowerEven(k);
      Apart(n, c);
    }
  }

  lemma PowerZero()
    ensures Power(10, 0) == 1
  {
  }

  lemma Apart(n: int, c: nat)
    requires Int32(n) && n != 0 && c % 2 == 0 && c > 0
    ensures Signed(Wrap(Negated(n < 0, Magnitude(n) * c))) != n
  {
    hide Wrap;
    var m := Magnitude(n);
    var x := Negated(n < 0, m * c);
    if Signed(Wrap(x)) == n {
      SameWord(x, n);
      var d := (x - n) / WORD;
      var q := if n < 0 then 0 - d else d;
      OneLess(m, c);
      assert m * (c - 1) == WORD * q;
      Two32();
      var r := Halve(32, m, c - 1, q);
      Bounded(m, r);
    }
  }

  lemma OneLess(m: int, c: int)
    ensures m * (c - 1) == m * c - m
  {
  }

  lemma Bounded(m: nat, r: int)
    requires 0 < m <= 0x8000_0000
    ensures m != WORD * r
  {
  }

  lemma SameWord(x: int, n: int)
    requires Int32(n) && Signed(Wrap(x)) == n
    ensures x - n == WORD * ((x - n) / WORD)
  {
    assert x == WORD * (x / WORD) + x % WORD;
    var q := if x % WORD < 0x8000_0000 then x / WORD else x / WORD + 1;
    assert x - n == WORD * q;
  }

  function Two(k: nat): nat {
    if k == 0 then 1 else 2 * Two(k - 1)
  }

  lemma Two32()
    ensures Two(32) == WORD
  {
    assert Two(8) == 256;
    assert Two(16) == 256 * Two(8);
    assert Two(24) == 256 * Two(16);
    assert Two(32) == 256 * Two(24);
  }

  lemma PowerEven(k: nat)
    requires k > 0
    ensures Power(10, k) % 2 == 0 && Power(10, k) >= 10
  {
    Positive(k - 1);
  }

  lemma {:induction false} Positive(k: nat)
    ensures Power(10, k) >= 1
  {
    if k > 0 {
      Positive(k - 1);
    }
  }

  /** A power of two that divides an odd multiple of m divides m. */
  lemma {:induction false} Halve(k: nat, m: int, c: int, q: int) returns (r: int)
    requires c % 2 == 1 && m * c == Two(k) * q
    ensures m == Two(k) * r
  {
    if k == 0 {
      r := m;
    } else {
      EvenFactor(m, c, Two(k - 1) * q);
      var h := m / 2;
      assert h * c == Two(k - 1) * q;
      var r' := Halve(k - 1, h, c, q);
      r := r';
    }
  }

  lemma EvenFactor(m: int, c: int, p: int)
    requires c % 2 == 1 && m * c == 2 * p
    ensures m % 2 == 0 && m / 2 * c == p
  {
    var d := c / 2;
    assert c == 2 * d + 1;
    assert m * c == 2 * (m * d) + m;
    var h := m / 2;
    assert m == 2 * h;
    assert 2 * (h * c) == m * c;
  }

  // ------------------------------------------------------ through the format

  lemma DirectiveText(f: Flags, args: seq<Arg>)
    requires f.inPct && ArgsOk(args) && args != []
    ensures Render(Ask(f, "d"), args, PLAIN) == Number(f, 'd', args[0].num)
  {
    hide Render;
    hide Ask;
    hide Number;
    DirectiveRenders(f, 0, 'd', "", args);
    assert Repeat('l', 0) + (['d'] + "") == "d";
    RenderNothing(Others(args), PLAIN);
    assert Number(f, 'd', args[0].num) + "" == Number(f, 'd', args[0].num);
  }

  /** Printing a number with snprintf and reading it with atoi. */
  method PrintAndRead(n: int, f: Flags) returns (r: int)
    requires Int32(n) && f.inPct
    ensures r == n <==> !Spoiled(f, n)
  {
    hide Render;
    hide Number;
    hide Spoiled;
    var w := Wrap(n);
    var args := [Arg(w, None)];
    var fmt := Ask(f, "d");
    DirectiveText(f, args);
    RoundTrip(n, f);
    var none := new char[0];
    var len := Vsnprintf(none, 0, fmt, args);
    var buf := new char[len + 1];
    var chars := Vsnprintf(buf, len + 1, fmt, args);
    ghost var text := Render(fmt, args, PLAIN);
    assert text[..|text|] == text;
    r := Atoi(buf[..chars]);
  }
}
