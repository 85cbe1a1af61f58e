/** Printing numbers (printnum and the %d, %u, %x paths of lib/printfmt.c) and reading them back
    (strtol of lib/string.c). */
module PrintParse {

  // ---------- printing ----------

  function Digit(d: nat): char
    requires d < 16
  {
    "0123456789abcdef"[d]
  }

  /** num / base, all digits but the last. */
  function Quo(num: nat, base: nat): (q: nat)
    requires base >= 2
    ensures num > 0 ==> q < num
  {
    QuoLess(num, base);
    num / base
  }

  /** num % base, the last digit. */
  function Rem(num: nat, base: nat): (r: nat)
    requires base >= 2
    ensures r < base
  {
    num % base
  }

  lemma QuoLess(num: nat, base: nat)
    requires base >= 2
    ensures 0 <= num / base && (num > 0 ==> num / base < num)
  {
    var q := num / base;
    assert num == q * base + num % base;
    assert q * base >= q * 2;
  }

  lemma QuoRem(num: nat, base: nat)
    requires base >= 2
    ensures num == Quo(num, base) * base + Rem(num, base) && (num < base ==> Rem(num, base) == num)
  {
  }

  function Times(c: char, n: int): string {
    if n <= 0 then "" else Times(c, n - 1) + [c]
  }

  /** The digits of num, most significant first. */
  function Digits(num: nat, base: nat): string
    requires 2 <= base <= 16
  {
    if num >= base then Digits(Quo(num, base), base) + [Digit(Rem(num, base))] else [Digit(num)]
  }

  /** What printnum writes. */
  function Printed(num: nat, base: nat, width: int, padc: char): string
    requires 2 <= base <= 16
  {
    if num >= base then Printed(Quo(num, base), base, width - 1, padc) + [Digit(Rem(num, base))]
    else Times(padc, width - 1) + [Digit(num)]
  }

  /** The %d path: the sign comes first, and the width counts the digits only. */
  function PrintedInt(num: int, width: int, padc: char): string {
    if num < 0 then "-" + Printed(-num, 10, width, padc) else Printed(num, 10, width, padc)
  }

  function Max(a: int, b: int): int { if a >= b then a else b }

  lemma {:induction false} TimesLength(c: char, n: int)
    ensures |Times(c, n)| == Max(0, n) && forall i :: 0 <= i < |Times(c, n)| ==> Times(c, n)[i] == c
  {
    if n > 0 {
      TimesLength(c, n - 1);
    }
  }

  /** The output is the digits behind as much padding as the width asks for, and so has exactly
      max(width, number of digits) characters. */
  lemma {:induction false} PrintedIs(num: nat, base: nat, width: int, padc: char)
    requires 2 <= base <= 16
    ensures Printed(num, base, width, padc) == Times(padc, width - |Digits(num, base)|) + Digits(num, base)
    ensures |Printed(num, base, width, padc)| == Max(width, |Digits(num, base)|)
  {
    hide Quo, Rem, Digit, Times;
    TimesLength(padc, width - |Digits(num, base)|);
    if num >= base {
      PrintedIs(Quo(num, base), base, width - 1, padc);
      var q := Digits(Quo(num, base), base);
      assert Times(padc, width - 1 - |q|) + q + [Digit(Rem(num, base))] ==
          Times(padc, width - 1 - |q|) + (q + [Digit(Rem(num, base))]);
    }
  }

  /** The characters written so far; putch is sprintputch. */
  class Output {
    var text: string

    constructor ()
      ensures text == ""
    {
      text := "";
    }

    method Putch(c: char)
      modifies this
      ensures text == old(text) + [c]
    {
      text := text + [c];
    }

    method Printnum(num: nat, base: nat, width: int, padc: char)
      requires 2 <= base <= 16
      modifies this
      ensures text == old(text) + Printed(num, base, width, padc)
      decreases num
    {
      hide Quo, Rem, Digit, Times;
      QuoRem(num, base);
      ghost var t := text;
      if num >= base {
        Printnum(Quo(num, base), base, width - 1, padc);
        assert t + Printed(Quo(num, base), base, width - 1, padc) + [Digit(Rem(num, base))]
            == t + (Printed(Quo(num, base), base, width - 1, padc) + [Digit(Rem(num, base))]);
      } else {
        Pad(width - 1, padc);
        assert t + Times(padc, width - 1) + [Digit(num)] == t + (Times(padc, width - 1) + [Digit(num)]);
      }
      Putch(Digit(Rem(num, base)));
    }

    /** The padding loop of printnum. */
    method Pad(n: int, padc: char)
      modifies this
      ensures text == old(text) + Times(padc, n)
    {
      var i := 0;
      assert text + Times(padc, 0) == text;
      while i < n
        invariant 0 <= i <= Max(0, n) && text == old(text) + Times(padc, i)
      {
        Putch(padc);
        i := i + 1;
      }
    }

    /** %p. */
    method PrintPointer(num: nat, width: int, padc: char)
      modifies this
      ensures text == old(text) + PrintedPointer(num, width, padc)
    {
      Putch('0');
      Putch('x');
      Printnum(num, 16, width, padc);
    }

    /** %d, for a value of type int. */
    method PrintInt(num: int, width: int, padc: char)
      modifies this
      ensures text == old(text) + PrintedInt(num, width, padc)
    {
      var n := num;
      if n < 0 {
        Putch('-');
        n := -n;
      }
      Printnum(n, 10, width, padc);
    }
  }

  // ---------- digits as characters ----------

  /** Character c is the digit d: 0 to 9, then a to z or A to Z. */
  predicate Spells(c: char, d: nat) {
    || (d < 10 && c == "0123456789"[d])
    || (10 <= d < 36 && (c == "abcdefghijklmnopqrstuvwxyz"[d - 10] || c == "ABCDEFGHIJKLMNOPQRSTUVWXYZ"[d - 10]))
  }

  /** The digits of a number, most significant first. */
  function Places(num: nat, base: nat): seq<nat>
    requires base >= 2
  {
    if num >= base then Places(Quo(num, base), base) + [Rem(num, base)] else [num]
  }

  /** The number that digits stand for in base. */
  function Positional(ds: seq<nat>, base: nat): nat {
    if ds == [] then 0 else Positional(ds[..|ds| - 1], base) * base + ds[|ds| - 1]
  }

  /** The text spells the digits, one character for each. */
  ghost predicate SpellsAll(q: string, ds: seq<nat>) {
    |q| == |ds| && forall i :: 0 <= i < |q| ==> Spells(q[i], ds[i])
  }

  /** q spells num in base, in the characters 0 to 9 and a to f, without a zero in front. */
  ghost predicate Spelled(q: string, ds: seq<nat>, num: nat, base: nat) {
    && SpellsAll(q, ds) && Positional(ds, base) == num && q != ""
    && (forall i :: 0 <= i < |ds| ==> ds[i] < base)
    && (forall i :: 0 <= i < |q| ==> '0' <= q[i] <= '9' || 'a' <= q[i] <= 'f')
    && (q[0] == '0' <==> num == 0)
  }

  /** So does what printnum writes. */
  lemma {:induction false} DigitsSpell(num: nat, base: nat)
    requires 2 <= base <= 16
    ensures Spelled(Digits(num, base), Places(num, base), num, base)
  {
    QuoRem(num, base);
    hide Quo, Rem, Digit, Spelled;
    if num >= base {
      var n := Quo(num, base);
      assert n > 0 by { assert num == n * base + Rem(num, base); }
      DigitsSpell(n, base);
      PositionalNext(Places(n, base), Rem(num, base), base);
      hide Positional;
      SpelledNext(Digits(n, base), Places(n, base), n, Rem(num, base), base, num);
    } else {
      SpelledDigit(num, base);
    }
  }

  lemma SpelledDigit(d: nat, base: nat)
    requires d < base <= 16
    ensures Spelled([Digit(d)], [d], d, base)
  {
    DigitSpells(d);
    PositionalNext([], d, base);
    assert [] + [d] == [d];
    hide Digit, Spells, Positional;
    assert Positional([], base) == 0 by { NothingSpelled(); }
  }

  lemma SpelledNext(q: string, ds: seq<nat>, n: nat, d: nat, base: nat, num: nat)
    requires Spelled(q, ds, n, base) && n > 0 && d < base <= 16 && num > 0 && Positional(ds + [d], base) == num
    ensures Spelled(q + [Digit(d)], ds + [d], num, base)
  {
    DigitSpells(d);
    hide Digit, Spells, Positional;
    assert (q + [Digit(d)])[0] == q[0];
  }

  lemma SpelledFacts(num: nat, base: nat)
    requires 2 <= base <= 16
    ensures var q, ds := Digits(num, base), Places(num, base);
            SpellsAll(q, ds) && Positional(ds, base) == num && q != "" && forall i :: 0 <= i < |ds| ==> ds[i] < base
  {
    DigitsSpell(num, base);
    hide Digits, Places, Positional, SpellsAll;
  }

  lemma PositionalNext(ds: seq<nat>, d: nat, base: nat)
    ensures Positional(ds + [d], base) == Positional(ds, base) * base + d
  {
    assert (ds + [d])[..|ds|] == ds;
  }

  lemma DigitSpells(d: nat)
    requires d < 16
    ensures Spells(Digit(d), d) && ('0' <= Digit(d) <= '9' || 'a' <= Digit(d) <= 'f')
    ensures Digit(d) == '0' <==> d == 0
  {
  }

  // ---------- reading ----------

  /** A value of type long: 32 bits. */
  function Wrap(x: int): int {
    var m := x % 0x1_0000_0000;
    if m >= 0x8000_0000 then m - 0x1_0000_0000 else m
  }

  /** val = (val * base) + dig */
  function Push(val: int, base: int, dig: int): int {
    Wrap(val * base + dig)
  }

  /** The value of a digit, -1 for other characters. */
  function DigitOf(c: char): int {
    if '0' <= c <= '9' then c as int - '0' as int
    else if 'a' <= c <= 'z' then c as int - 'a' as int + 10
    else if 'A' <= c <= 'Z' then c as int - 'A' as int + 10
    else -1
  }

  predicate IsDigit(c: char, base: int) {
    0 <= DigitOf(c) < base
  }

  function Blanks(s: string, i: nat): (r: nat)
    requires i <= |s|
    ensures i <= r <= |s|
    decreases |s| - i
  {
    if i < |s| && (s[i] == ' ' || s[i] == '\t') then Blanks(s, i + 1) else i
  }

  /** The digit loop from index i with value val. */
  function Scan(s: string, i: nat, base: int, val: int): (int, nat)
    requires i <= |s|
    decreases |s| - i
  {
    if i < |s| && IsDigit(s[i], base) then Scan(s, i + 1, base, Push(val, base, DigitOf(s[i]))) else (val, i)
  }

  predicate HexPrefix(s: string, i: nat) {
    i + 1 < |s| && s[i] == '0' && s[i + 1] == 'x'
  }

  /** The digits from index j on, behind the prefix of the base if there is one. */
  function Number(s: string, j: nat, base: int): (int, nat)
    requires j <= |s|
  {
    if (base == 0 || base == 16) && HexPrefix(s, j) then Scan(s, j + 2, 16, 0)
    else if base == 0 && j < |s| && s[j] == '0' then Scan(s, j + 1, 8, 0)
    else Scan(s, j, if base == 0 then 10 else base, 0)
  }

  /** strtol: the value, and where *endptr points. */
  function Strtol(s: string, base: int): (int, nat) {
    var i := Blanks(s, 0);
    var neg := i < |s| && s[i] == '-';
    var j := if i < |s| && (s[i] == '+' || s[i] == '-') then i + 1 else i;
    var r := Number(s, j, base);
    (if neg then Wrap(-r.0) else r.0, r.1)
  }

  /** The first loop of strtol. */
  method SkipBlanks(s: string) returns (i: nat)
    ensures i <= |s| && i == Blanks(s, 0)
  {
    i := 0;
    while i < |s| && (s[i] == ' ' || s[i] == '\t')
      invariant i <= |s| && Blanks(s, i) == Blanks(s, 0)
    {
      i := i + 1;
    }
  }

  /** The digit loop of strtol. */
  method ReadScan(s: string, start: nat, base: int) returns (val: int, i: nat)
    requires start <= |s|
    ensures (val, i) == Scan(s, start, base, 0)
  {
    hide Push, DigitOf;
    i, val := start, 0;
    while i < |s| && IsDigit(s[i], base)
      invariant start <= i <= |s| && Scan(s, i, base, val) == Scan(s, start, base, 0)
    {
      var dig := DigitOf(s[i]);
      i, val := i + 1, Push(val, base, dig);
    }
  }

  /** strtol as it runs; s is the text before the terminating NUL. */
  method ReadNumber(s: string, base0: int) returns (value: int, end: nat)
    ensures (value, end) == Strtol(s, base0)
  {
    hide Wrap, Scan, Blanks;
    var base, neg := base0, false;
    var i := SkipBlanks(s);
    if i < |s| && s[i] == '+' {
      i := i + 1;
    } else if i < |s| && s[i] == '-' {
      i, neg := i + 1, true;
    }
    if (base == 0 || base == 16) && i + 1 < |s| && s[i] == '0' && s[i + 1] == 'x' {
      i, base := i + 2, 16;
    } else if base == 0 && i < |s| && s[i] == '0' {
      i, base := i + 1, 8;
    } else if base == 0 {
      base := 10;
    }
    var val;
    val, end := ReadScan(s, i, base);
    value := if neg then Wrap(-val) else val;
  }

  // ---------- what is read ----------

  /** The digit loop knows a character by its digit, in either case, and no others. */
  lemma DigitIff(c: char, d: nat)
    ensures Spells(c, d) <==> DigitOf(c) == d
  {
    if d < 10 {
      DecimalAt(d);
    } else if d < 36 {
      LetterAt(d - 10);
    }
  }

  lemma DecimalAt(d: nat)
    requires d < 10
    ensures "0123456789"[d] == ('0' as int + d) as char
  {
  }

  lemma LetterAt(i: nat)
    requires i < 26
    ensures "abcdefghijklmnopqrstuvwxyz"[i] == ('a' as int + i) as char
    ensures "ABCDEFGHIJKLMNOPQRSTUVWXYZ"[i] == ('A' as int + i) as char
  {
  }

  /** The value of a string of digits. */
  function Value(q: string, base: int, val: int): int {
    if q == "" then val else Push(Value(q[..|q| - 1], base, val), base, DigitOf(q[|q| - 1]))
  }

  predicate AllDigits(q: string, base: int) {
    forall i :: 0 <= i < |q| ==> IsDigit(q[i], base)
  }

  lemma {:induction false} ValueFront(q: string, base: int, val: int)
    requires q != ""
    ensures Value(q, base, val) == Value(q[1..], base, Push(val, base, DigitOf(q[0])))
  {
    var n := |q| - 1;
    if n > 0 {
      ValueFront(q[..n], base, val);
      assert q[..n][1..] == q[1..][..n - 1];
    }
  }

  /** The digit loop stops at the first character that is no digit of the base. */
  predicate Stops(rest: string, base: int) {
    rest == "" || forall d: nat :: Spells(rest[0], d) ==> d >= base
  }

  lemma StopsHere(rest: string, base: int)
    requires Stops(rest, base)
    ensures rest == "" || !IsDigit(rest[0], base)
  {
    if rest != "" && DigitOf(rest[0]) >= 0 {
      DigitIff(rest[0], DigitOf(rest[0]));
    }
  }

  lemma {:induction false} ScanAll(pre: string, q: string, rest: string, base: int, val: int)
    requires AllDigits(q, base) && Stops(rest, base)
    ensures Scan(pre + q + rest, |pre|, base, val) == (Value(q, base, val), |pre + q|)
    decreases |q|
  {
    hide Stops, DigitOf;
    var s := pre + q + rest;
    if q != "" {
      assert s[|pre|] == q[0];
      assert s == (pre + [q[0]]) + q[1..] + rest;
      ScanAll(pre + [q[0]], q[1..], rest, base, Push(val, base, DigitOf(q[0])));
      ValueFront(q, base, val);
    } else {
      StopsHere(rest, base);
      assert rest != "" ==> s[|pre|] == rest[0];
    }
  }

  /** The value of text that spells digits is the number they stand for, as a long. */
  lemma {:induction false} SpelledValue(q: string, ds: seq<nat>, base: nat)
    requires SpellsAll(q, ds) && forall i :: 0 <= i < |ds| ==> ds[i] < base
    ensures AllDigits(q, base) && Value(q, base, 0) == Wrap(Positional(ds, base))
  {
    hide Spells, DigitOf, Wrap;
    if q == "" {
      WrapZero();
    } else {
      var n := |q| - 1;
      SpelledValue(q[..n], ds[..n], base);
      DigitIff(q[n], ds[n]);
      WrapTwice(Positional(ds[..n], base), base, ds[n]);
      forall i | 0 <= i < |q| ensures IsDigit(q[i], base) {
        DigitIff(q[i], ds[i]);
      }
    }
  }

  lemma WrapZero()
    ensures Wrap(0) == 0
  {
  }

  lemma WrapTwice(a: int, b: int, c: int)
    ensures Wrap(Wrap(a) * b + c) == Wrap(a * b + c)
  {
    var k := (a - Wrap(a)) / 0x1_0000_0000;
    assert a == Wrap(a) + k * 0x1_0000_0000;
    assert a * b + c == Wrap(a) * b + c + (k * b) * 0x1_0000_0000 by {
      assert (Wrap(a) + k * 0x1_0000_0000) * b == Wrap(a) * b + (k * b) * 0x1_0000_0000;
    }
    WrapShift(Wrap(a) * b + c, k * b);
  }

  lemma WrapShift(x: int, k: int)
    ensures Wrap(x + k * 0x1_0000_0000) == Wrap(x)
  {
  }

  /** A base and the prefix that may stand for it: the digits behind it are those of radix. */
  predicate Prefixed(base: int, prefix: string, radix: nat) {
    || (prefix == "" && 2 <= base <= 36 && radix == base)
    || (prefix == "0x" && (base == 0 || base == 16) && radix == 16)
    || (prefix == "0" && base == 0 && radix == 8)
    || (prefix == "" && base == 0 && radix == 10)
  }

  /** What follows is not taken for another sign or prefix. */
  predicate Unmistaken(sign: string, base: int, prefix: string, q: string, rest: string) {
    var t := q + rest;
    && (prefix == "" && sign == "" && t != "" ==> !Blank(t[0]) && t[0] != '+' && t[0] != '-')
    && (prefix == "" && base == 0 ==> t == "" || t[0] != '0')
    && (prefix == "" && base == 16 ==> |t| < 2 || t[0] != '0' || t[1] != 'x')
    && (prefix == "0" ==> t == "" || t[0] != 'x')
  }

  predicate Blank(c: char) { c == ' ' || c == '\t' }

  /** Digits behind a prefix. */
  lemma ReadNumberText(pre: string, sign: string, prefix: string, q: string, rest: string, base: int, radix: nat)
    requires Prefixed(base, prefix, radix) && Unmistaken(sign, base, prefix, q, rest)
    requires AllDigits(q, radix) && Stops(rest, radix)
    ensures Number(pre + prefix + q + rest, |pre|, base) == (Value(q, radix, 0), |pre + prefix + q|)
  {
    hide Scan, Value, AllDigits, Stops;
    var s, t := pre + prefix + q + rest, q + rest;
    ScanAll(pre + prefix, q, rest, radix, 0);
    assert forall i :: 0 <= i < |prefix + t| ==> s[|pre| + i] == (prefix + t)[i];
    assert prefix + t == prefix + q + rest;
  }

  /** A sign, or none. */
  predicate Sign(sign: string) {
    sign == "" || sign == "+" || sign == "-"
  }

  function Signed(sign: string, x: int): int { if sign == "-" then -x else x }

  lemma ReadSign(blanks: string, sign: string, t: string, base: int)
    requires Sign(sign) && forall i :: 0 <= i < |blanks| ==> Blank(blanks[i])
    requires sign == "" && t != "" ==> !Blank(t[0]) && t[0] != '+' && t[0] != '-'
    ensures var s, pre := blanks + sign + t, blanks + sign;
            && Strtol(s, base) == (if sign == "-" then Wrap(-Number(s, |pre|, base).0) else Number(s, |pre|, base).0,
                                   Number(s, |pre|, base).1)
  {
    hide Number, Wrap;
    BlanksSkipped(blanks, sign + t, 0);
    var s, m := blanks + sign + t, |blanks|;
    assert s == blanks + (sign + t);
    assert sign + t != "" ==> s[m] == (sign + t)[0];
  }

  /** What strtol reads: behind blanks and tabs, a sign and a prefix, the number that the digits stand for in the base
      that was asked for or that the prefix tells, as a long, 0 if there are none; *endptr is behind the last digit. */
  lemma ReadText(blanks: string, sign: string, prefix: string, q: string, ds: seq<nat>, rest: string, base: int,
                 radix: nat)
    requires Sign(sign) && Prefixed(base, prefix, radix) && Unmistaken(sign, base, prefix, q, rest)
    requires forall i :: 0 <= i < |blanks| ==> Blank(blanks[i])
    requires SpellsAll(q, ds) && (forall i :: 0 <= i < |ds| ==> ds[i] < radix) && Stops(rest, radix)
    ensures Strtol(blanks + sign + prefix + q + rest, base) ==
              (Wrap(Signed(sign, Positional(ds, radix))), |blanks + sign + prefix + q|)
  {
    hide Strtol, Number, Value, Wrap, Stops, Positional, Spells;
    SpelledValue(q, ds, radix);
    var pre, t := blanks + sign, prefix + q + rest;
    ReadNumberText(pre, sign, prefix, q, rest, base, radix);
    if prefix == "" {
      assert t == q + rest;
    } else {
      assert t[0] == '0';
    }
    ReadSign(blanks, sign, t, base);
    assert pre + prefix + q + rest == pre + t;
    WrapNegated(Positional(ds, radix));
  }

  /** Digits with nothing behind them. */
  lemma ReadAlone(blanks: string, sign: string, prefix: string, q: string, ds: seq<nat>, base: int, radix: nat)
    requires Sign(sign) && Prefixed(base, prefix, radix) && forall i :: 0 <= i < |blanks| ==> Blank(blanks[i])
    requires SpellsAll(q, ds) && (forall i :: 0 <= i < |ds| ==> ds[i] < radix) && Unmistaken(sign, base, prefix, q, "")
    ensures Strtol(blanks + sign + prefix + q, base) ==
              (Wrap(Signed(sign, Positional(ds, radix))), |blanks + sign + prefix + q|)
  {
    hide *;
    StopsAtEnd(radix);
    ReadText(blanks, sign, prefix, q, ds, "", base, radix);
    assert blanks + sign + prefix + q + "" == blanks + sign + prefix + q;
  }

  lemma StopsAtEnd(base: int)
    ensures Stops("", base)
  {
  }

  lemma WrapNegated(x: int)
    ensures Wrap(-Wrap(x)) == Wrap(-x) && Wrap(Wrap(x)) == Wrap(x)
  {
    WrapTwice(x, -1, 0);
    WrapTwice(x, 1, 0);
    hide Wrap;
  }

  /** Text printnum wrote, behind zeros. */
  lemma {:induction false} ZerosSpell(n: int, q: string, ds: seq<nat>, base: nat)
    requires SpellsAll(q, ds) && base >= 2 && forall i :: 0 <= i < |ds| ==> ds[i] < base
    ensures var zs := seq(Max(0, n), i => 0) + ds;
            && SpellsAll(Times('0', n) + q, zs) && Positional(zs, base) == Positional(ds, base)
            && forall i :: 0 <= i < |zs| ==> zs[i] < base
    decreases Max(0, n)
  {
    hide Spells;
    TimesLength('0', n);
    ZeroSpells();
    ZerosPositional(Max(0, n), ds, base);
  }

  lemma ZeroSpells()
    ensures Spells('0', 0)
  {
  }

  lemma {:induction false} ZerosPositional(n: nat, ds: seq<nat>, base: nat)
    ensures Positional(seq(n, i => 0) + ds, base) == Positional(ds, base)
    decreases n + |ds|
  {
    var zs := seq(n, i => 0) + ds;
    if ds != [] {
      assert zs[..|zs| - 1] == seq(n, i => 0) + ds[..|ds| - 1];
      ZerosPositional(n, ds[..|ds| - 1], base);
    } else if n > 0 {
      assert zs[..|zs| - 1] == seq(n - 1, i => 0) + ds;
      ZerosPositional(n - 1, ds, base);
    }
  }

  lemma {:induction false} BlanksSkipped(blanks: string, q: string, i: nat)
    requires i <= |blanks| && forall k :: 0 <= k < |blanks| ==> Blank(blanks[k])
    requires q == "" || !Blank(q[0])
    ensures Blanks(blanks + q, i) == |blanks|
    decreases |blanks| - i
  {
    var s := blanks + q;
    if i < |blanks| {
      assert s[i] == blanks[i];
      BlanksSkipped(blanks, q, i + 1);
    } else {
      assert q != "" ==> s[i] == q[0];
    }
  }

  lemma DigitFirst(q: string, ds: seq<nat>)
    requires q != "" && SpellsAll(q, ds)
    ensures !Blank(q[0]) && q[0] != '+' && q[0] != '-'
  {
    DigitIff(q[0], ds[0]);
    assert Spells(q[0], ds[0]);
    hide Spells;
  }

  /** Digits that printnum wrote are no prefix. */
  lemma NoPrefix(q: string, ds: seq<nat>, base: nat)
    requires 2 <= base <= 16 && SpellsAll(q, ds) && forall i :: 0 <= i < |ds| ==> ds[i] < base
    ensures |q| > 1 ==> q[1] != 'x'
  {
    if |q| > 1 {
      assert Spells(q[1], ds[1]);
      DigitIff(q[1], ds[1]);
      hide Spells;
    }
  }

  /** Digits behind blanks or behind a minus. */
  lemma ReadDigits(blanks: string, sign: string, q: string, ds: seq<nat>, base: nat)
    requires 2 <= base <= 16 && Sign(sign) && q != "" && SpellsAll(q, ds) && forall i :: 0 <= i < |ds| ==> ds[i] < base
    requires forall i :: 0 <= i < |blanks| ==> Blank(blanks[i])
    ensures Strtol(blanks + sign + q, base) == (Wrap(Signed(sign, Positional(ds, base))), |blanks + sign + q|)
  {
    PlainDigits(sign, q, ds, base);
    hide *;
    ReadAlone(blanks, sign, "", q, ds, base, base);
    assert blanks + sign + "" + q == blanks + sign + q;
  }

  lemma PlainDigits(sign: string, q: string, ds: seq<nat>, base: nat)
    requires 2 <= base <= 16 && q != "" && SpellsAll(q, ds) && forall i :: 0 <= i < |ds| ==> ds[i] < base
    ensures Prefixed(base, "", base) && Unmistaken(sign, base, "", q, "")
  {
    NoPrefix(q, ds, base);
    DigitFirst(q, ds);
    hide SpellsAll, Blank;
    assert q + "" == q;
  }

  /** What strtol reads from what printnum wrote, padded with blanks or zeros to any width, is the number
      as a 32-bit long, and the whole text is consumed. */
  lemma PrintThenRead(num: nat, base: nat, width: int, padc: char)
    requires 2 <= base <= 16 && (padc == ' ' || padc == '0')
    ensures Strtol(Printed(num, base, width, padc), base) == (Wrap(num), |Printed(num, base, width, padc)|)
  {
    hide Strtol, Digits, Printed, Wrap, Times, Places, Positional, SpellsAll;
    var q, ds := Digits(num, base), Places(num, base);
    PrintedIs(num, base, width, padc);
    DigitsSpell(num, base);
    var n := width - |q|;
    TimesLength(padc, n);
    if padc == ' ' {
      ReadDigits(Times(' ', n), "", q, ds, base);
      assert Times(' ', n) + "" + q == Times(' ', n) + q;
    } else {
      ZerosSpell(n, q, ds, base);
      ReadDigits("", "", Times('0', n) + q, seq(Max(0, n), i => 0) + ds, base);
      NoBlanks("", Times('0', n) + q);
    }
  }

  lemma NoBlanks(sign: string, q: string)
    ensures "" + sign + q == sign + q && "" + q == q
  {
  }

  // ---------- prefixes ----------

  /** A number behind the prefix of its base: hexadecimal behind 0x for base 0 and 16, octal behind 0 and decimal behind
      nothing for base 0; after blanks and tabs, behind a sign or none. */
  lemma PrefixRead(blanks: string, sign: string, num: nat)
    requires Sign(sign) && forall i :: 0 <= i < |blanks| ==> Blank(blanks[i])
    ensures var x, b := Wrap(Signed(sign, num)), blanks + sign;
            var hex, oct, dec := b + "0x" + Digits(num, 16), b + "0" + Digits(num, 8), b + Digits(num, 10);
            && Strtol(hex, 0) == (x, |hex|) && Strtol(hex, 16) == (x, |hex|)
            && Strtol(oct, 0) == (x, |oct|) && Strtol(dec, 0) == (x, |dec|)
  {
    hide Strtol, Digits, Wrap;
    HexRead(blanks, sign, num, 0);
    HexRead(blanks, sign, num, 16);
    OctalRead(blanks, sign, num);
    DecimalRead(blanks, sign, num);
  }

  lemma HexRead(blanks: string, sign: string, num: nat, base: int)
    requires Sign(sign) && (base == 0 || base == 16) && forall i :: 0 <= i < |blanks| ==> Blank(blanks[i])
    ensures var t := blanks + sign + "0x" + Digits(num, 16); Strtol(t, base) == (Wrap(Signed(sign, num)), |t|)
  {
    hide Strtol, Digits, Wrap, Places, Positional, SpellsAll, Blank;
    DigitsSpell(num, 16);
    ReadAlone(blanks, sign, "0x", Digits(num, 16), Places(num, 16), base, 16);
  }

  lemma OctalRead(blanks: string, sign: string, num: nat)
    requires Sign(sign) && forall i :: 0 <= i < |blanks| ==> Blank(blanks[i])
    ensures var t := blanks + sign + "0" + Digits(num, 8); Strtol(t, 0) == (Wrap(Signed(sign, num)), |t|)
  {
    hide Strtol, Digits, Wrap, Places, Positional, SpellsAll, Blank;
    DigitsSpell(num, 8);
    assert Digits(num, 8) + "" == Digits(num, 8);
    ReadAlone(blanks, sign, "0", Digits(num, 8), Places(num, 8), 0, 8);
  }

  lemma DecimalRead(blanks: string, sign: string, num: nat)
    requires Sign(sign) && forall i :: 0 <= i < |blanks| ==> Blank(blanks[i])
    ensures var t := blanks + sign + Digits(num, 10); Strtol(t, 0) == (Wrap(Signed(sign, num)), |t|)
  {
    hide *;
    if num == 0 {
      ZeroRead(blanks, sign);
      ZeroDigits();
    } else {
      PlainDecimal(sign, num);
      SpelledFacts(num, 10);
      ReadAlone(blanks, sign, "", Digits(num, 10), Places(num, 10), 0, 10);
      assert blanks + sign + "" + Digits(num, 10) == blanks + sign + Digits(num, 10);
    }
  }

  lemma ZeroDigits()
    ensures Digits(0, 10) == "0"
  {
  }

  lemma PlainDecimal(sign: string, num: nat)
    requires num > 0
    ensures Prefixed(0, "", 10) && Unmistaken(sign, 0, "", Digits(num, 10), "")
  {
    DigitsSpell(num, 10);
    DigitFirst(Digits(num, 10), Places(num, 10));
    hide SpellsAll, Blank, Digits, Places, Positional;
    assert Digits(num, 10) + "" == Digits(num, 10);
  }

  lemma ZeroRead(blanks: string, sign: string)
    requires Sign(sign) && forall i :: 0 <= i < |blanks| ==> Blank(blanks[i])
    ensures Strtol(blanks + sign + "0", 0) == (Wrap(Signed(sign, 0)), |blanks + sign + "0"|)
  {
    NothingSpelled();
    hide Strtol, Wrap, Blank, Positional, SpellsAll;
    ReadAlone(blanks, sign, "0", "", [], 0, 8);
    assert blanks + sign + "0" + "" == blanks + sign + "0";
  }

  /** The %p path. */
  function PrintedPointer(num: nat, width: int, padc: char): string {
    "0x" + Printed(num, 16, width, padc)
  }

  /** A pointer printed with %p is read back, all of it, if and only if no blank is written behind its prefix. */
  lemma PointerReadIff(num: nat, width: int, padc: char, base: int)
    requires (base == 0 || base == 16) && (padc == ' ' || padc == '0')
    ensures var t := PrintedPointer(num, width, padc);
            Strtol(t, base) == (Wrap(num), |t|) <==> padc == '0' || width <= |Digits(num, 16)|
  {
    hide Strtol, Digits, Printed, Wrap, Places, Positional, SpellsAll;
    var q, ds := Digits(num, 16), Places(num, 16);
    DigitsSpell(num, 16);
    PrintedIs(num, 16, width, padc);
    var m := width - |q|;
    TimesLength(padc, m);
    if padc == ' ' && m > 0 {
      BlankStops(m, q, 16);
      assert Positional([], 16) == 0 by { NothingSpelled(); }
      NothingSpelled();
      ReadText("", "", "0x", "", [], Times(' ', m) + q, base, 16);
      assert "" + "" + "0x" + "" + (Times(' ', m) + q) == "0x" + (Times(' ', m) + q);
    } else {
      ZerosSpell(m, q, ds, 16);
      assert padc == ' ' ==> Times(padc, m) == "" && Times('0', m) == "";
      var z := Times('0', m) + q;
      TimesLength('0', m);
      ReadText("", "", "0x", z, seq(Max(0, m), i => 0) + ds, "", base, 16);
      assert "" + "" + "0x" + z + "" == "0x" + z && "" + "" + "0x" + z == "0x" + z;
    }
  }

  lemma BlankStops(m: int, q: string, base: int)
    requires m > 0
    ensures Times(' ', m) + q != "" && (Times(' ', m) + q)[0] == ' ' && Stops(Times(' ', m) + q, base)
  {
    TimesLength(' ', m);
    forall d: nat ensures !Spells(' ', d) {
      BlankNoDigit(d);
    }
    hide Times, Spells;
    assert (Times(' ', m) + q)[0] == ' ';
  }

  lemma BlankNoDigit(d: nat)
    ensures !Spells(' ', d)
  {
    DigitIff(' ', d);
    hide Spells;
  }

  lemma NothingSpelled()
    ensures SpellsAll("", []) && forall b: nat :: Positional([], b) == 0
  {
  }

  // ---------- what comes back ----------

  /** Unsigned numbers come back if and only if they fit a long. */
  lemma RoundTripIff(num: nat, base: nat, width: int, padc: char)
    requires 2 <= base <= 16 && (padc == ' ' || padc == '0') && num < 0x1_0000_0000
    ensures Strtol(Printed(num, base, width, padc), base).0 == num <==> num < 0x8000_0000
  {
    hide Strtol, Printed;
    PrintThenRead(num, base, width, padc);
  }

  /** Every int printed with %d comes back if and only if it is not negative, or no blank is written
      between its sign and its digits. */
  lemma SignedRoundTripIff(num: int, width: int, padc: char)
    requires -0x8000_0000 <= num < 0x8000_0000 && (padc == ' ' || padc == '0')
    ensures Strtol(PrintedInt(num, width, padc), 10).0 == num <==>
            (num >= 0 || padc == '0' || width <= |Digits(-num, 10)|)
  {
    hide Strtol, Digits, Printed, Places, Positional, SpellsAll, Times, Wrap;
    WrapBack(num);
    if num >= 0 {
      PrintThenRead(num, 10, width, padc);
    } else {
      var q := Digits(-num, 10);
      var n := width - |q|;
      PrintedIs(-num, 10, width, padc);
      DigitsSpell(-num, 10);
      var ds := Places(-num, 10);
      TimesLength(padc, n);
      if padc == '0' {
        ZerosSpell(n, q, ds, 10);
        ReadDigits("", "-", Times('0', n) + q, seq(Max(0, n), i => 0) + ds, 10);
        NoBlanks("-", Times('0', n) + q);
      } else if n <= 0 {
        assert Times(' ', n) == "" && Times(' ', n) + q == q;
        ReadDigits("", "-", q, ds, 10);
        NoBlanks("-", q);
      } else {
        BlankAfterSign(n, q);
      }
    }
  }

  lemma WrapBack(num: int)
    requires -0x8000_0000 <= num < 0x8000_0000
    ensures Wrap(num) == num && Wrap(-Wrap(-num)) == num
  {
  }

  lemma BlankAfterSign(n: int, q: string)
    requires n > 0
    ensures Strtol("-" + (Times(' ', n) + q), 10).0 == 0
  {
    hide Strtol, Times;
    BlankStops(n, q, 10);
    NothingSpelled();
    WrapZero();
    var t := Times(' ', n) + q;
    assert "" + t == t;
    ReadText("", "-", "", "", [], t, 10, 10);
    assert "" + "-" + "" + "" + t == "-" + t;
  }

  // ---------- failing inputs ----------

  /** 2^31, printed with %x, is read back as the smallest long. */
  lemma UnsignedLost()
    ensures Strtol(Printed(0x8000_0000, 16, 0, ' '), 16).0 == -0x8000_0000
  {
    hide Strtol, Printed, Digits;
    PrintThenRead(0x8000_0000, 16, 0, ' ');
  }

  /** -5, printed with %3d, has its sign before the padding, and is read back as 0. */
  lemma SignedLost()
    ensures PrintedInt(-5, 3, ' ') == "-  5" && Strtol("-  5", 10) == (0, 1)
  {
    assert Times(' ', 1) == Times(' ', 0) + " " && Times(' ', 2) == Times(' ', 1) + " ";
    assert Printed(5, 10, 3, ' ') == "  " + "5";
    assert Blanks("-  5", 0) == 0 && Scan("-  5", 1, 10, 0) == (0, 1);
  }
}
