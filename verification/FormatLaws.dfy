/** What formatted output keeps: numbers read back, escapes that are not known
    come out as they are.
 */
module FormatLaws {
  import opened Wrappers
  import opened Strings
  import opened Format

  // ---------- the text of a number ----------

  /** The digits of a number, no more than it needs. */
  function Text(num: nat, base: nat): (s: string)
    requires 2 <= base <= 16
    ensures |s| > 0 && forall i :: 0 <= i < |s| ==> IsDigit(s[i], base)
    ensures s[0] == '0' ==> num == 0
  {
    if num >= base then Text(Quot(num, base), base) + [Digit(Rem(num, base))] else [Digit(num)]
  }

  /** The number that digits spell. */
  function Value(s: string, base: nat): (v: int)
    requires forall i :: 0 <= i < |s| ==> IsDigit(s[i], base)
    ensures v >= 0
  {
    if s == "" then 0
    else
      var front := Value(s[..|s| - 1], base);
      Product(front, base);
      assert IsDigit(s[|s| - 1], base);
      front * base + DigitOf(s[|s| - 1])
  }

  lemma Product(a: nat, b: nat)
    ensures a * b >= 0
  {
  }

  /** One more digit. */
  lemma ValueOn(t: string, d: nat, base: nat)
    requires 2 <= base <= 16 && d < base && forall i :: 0 <= i < |t| ==> IsDigit(t[i], base)
    ensures forall i :: 0 <= i < |t| + 1 ==> IsDigit((t + [Digit(d)])[i], base)
    ensures Value(t + [Digit(d)], base) == Value(t, base) * base + d
  {
    var s := t + [Digit(d)];
    assert s[..|s| - 1] == t && s[|s| - 1] == Digit(d);
  }

  lemma {:induction false} TextSpells(num: nat, base: nat)
    requires 2 <= base <= 16
    ensures Value(Text(num, base), base) == num
  {
    if num >= base {
      TextSpells(Quot(num, base), base);
      ValueOn(Text(Quot(num, base), base), Rem(num, base), base);
      Divided(num, base);
    } else {
      ValueOn("", num, base);
      assert "" + [Digit(num)] == [Digit(num)];
    }
  }

  /** printnum puts the digits, and before them as much padding as the width asks for. */
  lemma {:induction false} Printed(num: nat, base: nat, width: int, padc: char)
    requires 2 <= base <= 16
    ensures PrintNum(num, base, width, padc) == Repeat(padc, width - |Text(num, base)|) + Text(num, base)
    ensures |PrintNum(num, base, width, padc)| == if width > |Text(num, base)| then width else |Text(num, base)|
    decreases num
  {
    if num >= base {
      Printed(Quot(num, base), base, width - 1, padc);
      JoinThree(Repeat(padc, width - |Text(num, base)|), Text(Quot(num, base), base), [Digit(Rem(num, base))]);
    }
  }

  // ---------- reading it back ----------

  lemma {:induction false} DigitsTaken(s: string, i: nat, j: nat, base: nat)
    requires i <= j <= |s| && base > 0 && forall k :: i <= k < j ==> IsDigit(s[k], base)
    ensures TakeDigits(s, i, base, 0) == TakeDigits(s, j, base, Long(Value(s[i..j], base)))
    decreases j
  {
    if i < j {
      var front := s[i..j - 1];
      assert s[i..j][..j - i - 1] == front;
      LongOnce(Value(front, base), base, DigitOf(s[j - 1]));
      DigitsTaken(s, i, j - 1, base);
    } else {
      assert s[i..j] == "";
    }
  }

  lemma {:induction false} ZerosCountNothing(n: int, t: string, base: nat)
    requires base > 0 && forall i :: 0 <= i < |t| ==> IsDigit(t[i], base)
    ensures Value(Repeat('0', n) + t, base) == Value(t, base)
    decreases |t|, n
  {
    var s := Repeat('0', n) + t;
    if t != "" {
      assert s[..|s| - 1] == Repeat('0', n) + t[..|t| - 1];
      ZerosCountNothing(n, t[..|t| - 1], base);
    } else if n > 0 {
      assert s == Repeat('0', n) && s[..|s| - 1] == Repeat('0', n - 1) + "";
      ZerosCountNothing(n - 1, "", base);
    }
  }

  lemma {:induction false} BlanksSkipped(s: string, i: nat, j: nat)
    requires i <= j <= |s| && (forall k :: i <= k < j ==> s[k] == ' ') && !IsBlank(CharAt(s, j))
    ensures SkipBlanks(s, i) == j
    decreases j - i
  {
    if i < j { BlanksSkipped(s, i + 1, j); }
  }

  /** A run of digits to the end, with no base prefix before, is taken as its value, in 64 bits. */
  lemma AllTaken(s: string, i: nat, base: nat, v: nat)
    requires i < |s| && base in {8, 10, 16} && forall k :: i <= k < |s| ==> IsDigit(s[k], base)
    requires Value(s[i..], base) == v
    ensures Prefix(s, i, base) == (base, i) && TakeDigits(s, i, base, 0) == (Long(v), |s|)
  {
    assert !IsDigit('x', base) && s[i..|s|] == s[i..];
    assert CharAt(s, i + 1) != 'x';
    DigitsTaken(s, i, |s|, base);
  }

  /** Where the digits start that printnum puts, leading zeros among them. */
  function Start(num: nat, base: nat, width: int, padc: char): nat
    requires 2 <= base <= 16
  {
    if padc == ' ' && width > |Text(num, base)| then width - |Text(num, base)| else 0
  }

  lemma DigitsPrinted(num: nat, base: nat, width: int, padc: char)
    requires base in {8, 10, 16} && (padc == ' ' || padc == '0')
    ensures var s, i := PrintNum(num, base, width, padc), Start(num, base, width, padc);
      && i < |s| && (forall k :: 0 <= k < i ==> s[k] == ' ')
      && (forall k :: i <= k < |s| ==> IsDigit(s[k], base)) && Value(s[i..], base) == num
  {
    var s, t, i := PrintNum(num, base, width, padc), Text(num, base), Start(num, base, width, padc);
    Printed(num, base, width, padc);
    TextSpells(num, base);
    if padc == ' ' {
      assert s[i..] == t;
    } else {
      ZerosCountNothing(width - |t|, t, base);
      assert s[i..] == s;
    }
  }

  /** What printnum puts, strtol reads back, as a signed 64-bit number: it is num itself exactly below 2^63. */
  lemma NumberRoundTrip(num: nat, base: nat, width: int, padc: char)
    requires base in {8, 10, 16} && (padc == ' ' || padc == '0')
    ensures ParseLong(PrintNum(num, base, width, padc), base) == (Long(num), |PrintNum(num, base, width, padc)|)
    ensures Long(num) == num <==> num < 0x8000_0000_0000_0000
  {
    var s, i := PrintNum(num, base, width, padc), Start(num, base, width, padc);
    DigitsPrinted(num, base, width, padc);
    assert IsDigit(s[i], base) && CharAt(s, i) == s[i];
    BlanksSkipped(s, 0, i);
    AllTaken(s, i, base, num);
  }

  lemma MinusShifts(t: string, i: nat)
    requires i < |t|
    ensures ("-" + t)[i + 1..] == t[i..] && ("-" + t)[0] == '-' && CharAt("-" + t, i + 1) == t[i]
  {
  }

  /** Right after the sign come the digits... */
  lemma SignedTaken(t: string, v: nat)
    requires t != "" && (forall k :: 0 <= k < |t| ==> IsDigit(t[k], 10)) && Value(t, 10) == v <= 0x8000_0000_0000_0000
    ensures ParseLong("-" + t, 10) == (0 - v, |t| + 1)
  {
    var s := "-" + t;
    BlanksSkipped(s, 0, 0);
    MinusShifts(t, 0);
    assert t[0..] == t;
    forall k | 1 <= k < |s| ensures IsDigit(s[k], 10) {
      assert s[k] == t[k - 1];
    }
    AllTaken(s, 1, 10, v);
  }

  /** ... or a blank, and then none are taken. */
  lemma SignedBlank(t: string)
    requires t != "" && t[0] == ' '
    ensures ParseLong("-" + t, 10) == (0, 1)
  {
    var s := "-" + t;
    BlanksSkipped(s, 0, 0);
    MinusShifts(t, 0);
    assert CharAt(s, 1) == ' ';
  }

  /** A negative number is read back exactly if no blanks got between its sign and its digits. */
  lemma NegativeRoundTrip(n: int, width: int, padc: char)
    requires (padc == ' ' || padc == '0') && -0x8000_0000_0000_0000 <= n < 0
    ensures var s := Decimal(n, width, padc);
      ParseLong(s, 10) == (n, |s|) <==> (padc == '0' || width <= |Text(-n, 10)|)
  {
    assert Decimal(n, width, padc) == "-" + PrintNum(-n, 10, width, padc);
    DigitsPrinted(-n, 10, width, padc);
    SignedReads(PrintNum(-n, 10, width, padc), -n, Start(-n, 10, width, padc));
  }

  lemma SignedReads(t: string, v: nat, i: nat)
    requires i < |t| && v > 0 && (forall k :: 0 <= k < i ==> t[k] == ' ')
    requires (forall k :: i <= k < |t| ==> IsDigit(t[k], 10)) && Value(t[i..], 10) == v <= 0x8000_0000_0000_0000
    ensures ParseLong("-" + t, 10) == (0 - v, |"-" + t|) <==> i == 0
  {
    if i == 0 {
      assert t[0..] == t;
      SignedTaken(t, v);
    } else {
      SignedBlank(t);
    }
  }

  /** Right after "0x" come the digits... */
  lemma PrefixedTaken(t: string, v: nat, base: nat)
    requires t != "" && (forall k :: 0 <= k < |t| ==> IsDigit(t[k], 16)) && Value(t, 16) == v
    requires base == 0 || base == 16
    ensures ParseLong("0x" + t, base) == (Long(v), |t| + 2)
  {
    var s := "0x" + t;
    assert s[0] == '0' && s[1] == 'x' && s[2..|s|] == t;
    BlanksSkipped(s, 0, 0);
    forall k | 2 <= k < |s| ensures IsDigit(s[k], 16) {
      assert s[k] == t[k - 2];
    }
    DigitsTaken(s, 2, |s|, 16);
  }

  /** ... or a blank, and then none are taken. */
  lemma PrefixedBlank(t: string, base: nat)
    requires t != "" && t[0] == ' ' && (base == 0 || base == 16)
    ensures ParseLong("0x" + t, base) == (0, 2)
  {
    var s := "0x" + t;
    assert s[0] == '0' && s[1] == 'x' && s[2] == ' ';
    BlanksSkipped(s, 0, 0);
  }

  /** What %p puts is read back in base 16, and in base 0 by its prefix, exactly if no blanks got between the prefix
      and the digits. */
  lemma PointerRoundTrip(num: nat, width: int, padc: char, base: nat)
    requires (padc == ' ' || padc == '0') && (base == 0 || base == 16)
    ensures var s := "0x" + PrintNum(num, 16, width, padc);
      ParseLong(s, base) == (Long(num), |s|) <==> (padc == '0' || width <= |Text(num, 16)|)
  {
    DigitsPrinted(num, 16, width, padc);
    PrefixedReads(PrintNum(num, 16, width, padc), num, Start(num, 16, width, padc), base);
  }

  lemma PrefixedReads(t: string, v: nat, i: nat, base: nat)
    requires i < |t| && (forall k :: 0 <= k < i ==> t[k] == ' ') && (base == 0 || base == 16)
    requires (forall k :: i <= k < |t| ==> IsDigit(t[k], 16)) && Value(t[i..], 16) == v
    ensures ParseLong("0x" + t, base) == (Long(v), |"0x" + t|) <==> i == 0
  {
    if i == 0 {
      assert t[0..] == t;
      PrefixedTaken(t, v, base);
    } else {
      PrefixedBlank(t, base);
    }
  }

  // ---------- widths ----------

  lemma {:induction false} NumberRead(fmt: string, i: nat, j: nat)
    requires i < j <= |fmt| && (forall k :: i <= k < j ==> '0' <= fmt[k] <= '9')
    ensures (forall k :: 0 <= k < j - i ==> IsDigit(fmt[i..j][k], 10))
    ensures Number(fmt, i + 1, fmt[i] as int - '0' as int) == Number(fmt, j, Value(fmt[i..j], 10))
    decreases j
  {
    assert fmt[i..j][..j - 1 - i] == fmt[i..j - 1];
    if i + 1 < j {
      NumberRead(fmt, i, j - 1);
    } else {
      assert fmt[i..j] == [fmt[i]] && fmt[i..j][..0] == "";
    }
  }

  lemma DigitsIn(fmt: string, i: nat, j: nat, t: string)
    requires i < j <= |fmt| && fmt[i..j] == t && (forall k :: 0 <= k < |t| ==> IsDigit(t[k], 10))
    ensures |t| == j - i && fmt[i] == t[0] && forall k :: i <= k < j ==> '0' <= fmt[k] <= '9'
  {
    assert fmt[i..j][0] == fmt[i];
    forall k | i <= k < j ensures '0' <= fmt[k] <= '9' {
      assert fmt[i..j][k - i] == fmt[k] && IsDigit(t[k - i], 10);
    }
  }

  lemma FirstDigit(num: nat)
    requires num > 0
    ensures '1' <= Text(num, 10)[0] <= '9'
  {
    assert IsDigit(Text(num, 10)[0], 10);
  }

  lemma NumberIs(fmt: string, i: nat, j: nat, width: nat)
    requires i < j <= |fmt| && width > 0 && fmt[i..j] == Text(width, 10) && !('0' <= CharAt(fmt, j) <= '9')
    ensures '1' <= fmt[i] <= '9' && Number(fmt, i + 1, fmt[i] as int - '0' as int) == (width, j)
  {
    DigitsIn(fmt, i, j, Text(width, 10));
    FirstDigit(width);
    TextSpells(width, 10);
    NumberRead(fmt, i, j);
  }

  /** A number written out in a format is the width, or the precision once there is a width. */
  lemma WidthParsed(fmt: string, i: nat, j: nat, width: nat, sp: Spec, args: seq<Arg>)
    requires i < j <= |fmt| && width > 0 && fmt[i..j] == Text(width, 10) && !('0' <= CharAt(fmt, j) <= '9')
    ensures Parse(fmt, i, sp, args) == Parse(fmt, j, Process(sp, width), args)
  {
    NumberIs(fmt, i, j, width);
  }

  /** %s puts what the precision leaves of the string, padded to the width on one side. */
  lemma StringPadded(s: string, sp: Spec)
    ensures var r, n := StringText(s, sp), Taken(s, sp.precision);
      && |r| == (if sp.width > n then sp.width else n) && n == (if 0 <= sp.precision < |s| then sp.precision else |s|)
      && (sp.padc == '-' ==> r[..n] == Shown(s[..n], sp.alt) && forall i :: n <= i < |r| ==> r[i] == ' ')
      && (sp.padc != '-' ==> r[|r| - n..] == Shown(s[..n], sp.alt) && forall i :: 0 <= i < |r| - n ==> r[i] == sp.padc)
  {
  }

  // ---------- text that is not converted ----------

  lemma FirstOf(fmt: string, i: nat, j: nat, rest: string)
    requires i < j <= |fmt|
    ensures [fmt[i]] + (fmt[i + 1..j] + rest) == fmt[i..j] + rest
  {
  }

  lemma {:induction false} Literal(fmt: string, i: nat, j: nat, args: seq<Arg>, next: nat)
    requires i <= j <= |fmt| && forall k :: i <= k < j ==> fmt[k] != '%' && fmt[k] != NUL
    ensures Format.Format(fmt, i, args, next) == fmt[i..j] + Format.Format(fmt, j, args, next)
    decreases j - i
  {
    if i < j {
      FormatPlain(fmt, i, args, next);
      Literal(fmt, i + 1, j, args, next);
      FirstOf(fmt, i, j, Format.Format(fmt, j, args, next));
    }
  }

  lemma FormatUnknown(fmt: string, i: nat, args: seq<Arg>, next: nat, e: Escape)
    requires i < |fmt| && fmt[i] == '%' && e == Parse(fmt, i + 1, FreshSpec(next), args) && !IsConversion(e.ch)
    ensures Format.Format(fmt, i, args, next) == "%" + Format.Format(fmt, i + 1, args, e.sp.next)
  {
  }

  /** An escape that is not known comes out as it is, up to its last character; only its '*' take arguments. */
  lemma UnknownEscape(fmt: string, i: nat, args: seq<Arg>, next: nat)
    requires i < |fmt| && fmt[i] == '%' && !IsConversion(Parse(fmt, i + 1, FreshSpec(next), args).ch)
    ensures var e := Parse(fmt, i + 1, FreshSpec(next), args);
      var end := if e.ch == NUL then e.end - 1 else e.end;
      end <= |fmt| && Format.Format(fmt, i, args, next) == fmt[i..end] + Format.Format(fmt, end, args, e.sp.next)
  {
    var e := Parse(fmt, i + 1, FreshSpec(next), args);
    var end := if e.ch == NUL then e.end - 1 else e.end;
    FormatUnknown(fmt, i, args, next, e);
    Literal(fmt, i + 1, end, args, e.sp.next);
    FirstOf(fmt, i, end, Format.Format(fmt, end, args, e.sp.next));
  }

  lemma FormatKnown(fmt: string, i: nat, args: seq<Arg>, next: nat, e: Escape)
    requires i < |fmt| && fmt[i] == '%' && e == Parse(fmt, i + 1, FreshSpec(next), args) && IsConversion(e.ch)
        && e.end <= |fmt|
    ensures Format.Format(fmt, i, args, next) ==
      Converted(e.ch, e.sp, Slot(args, e.sp.next)) + Format.Format(fmt, e.end, args, NextArg(e.ch, e.sp))
  {
  }

  lemma FormatEnd(fmt: string, args: seq<Arg>, next: nat)
    ensures Format.Format(fmt, |fmt|, args, next) == ""
  {
  }

  lemma PlainD(fmt: string, i: nat, args: seq<Arg>, next: nat)
    requires i < |fmt| && fmt[i] == 'd'
    ensures Parse(fmt, i, FreshSpec(next), args) == Escape('d', i + 1, FreshSpec(next))
  {
  }

  lemma DecimalLast(fmt: string, i: nat, err: nat, args: seq<Arg>)
    requires |fmt| == i + 2 && fmt[i] == '%' && fmt[i + 1] == 'd' && err < 0x8000_0000 && args == [Arg(err, None)]
    ensures Format.Format(fmt, i, args, 0) == Decimal(err, -1, ' ')
  {
    PlainD(fmt, i + 1, args, 0);
    FormatKnown(fmt, i, args, 0, Escape('d', i + 2, FreshSpec(0)));
    FormatEnd(fmt, args, 1);
    assert AsInt(err) == err;
  }

  lemma SmallInt(n: nat)
    requires n < 0x8000_0000
    ensures AsInt(n) == n && n % 0x1_0000_0000 == n
  {
  }

  lemma ErrorNumber(err: nat)
    requires err < 0x8000_0000
    ensures Format.Format("error %d", 0, [Arg(err, None)], 0) == "error " + Decimal(err, -1, ' ')
  {
    var fmt, args := "error %d", [Arg(err, None)];
    assert fmt[0..6] == "error ";
    Literal(fmt, 0, 6, args, 0);
    DecimalLast(fmt, 6, err, args);
  }

  /** What an error without a text is put as: another format, with the number for its argument. */
  lemma ErrorFormat(err: nat)
    requires err < 0x8000_0000 && ErrorString(err) == None
    ensures ErrorText(err) == Format.Format("error %d", 0, [Arg(err, None)], 0)
  {
    ErrorNumber(err);
    SmallInt(err);
    ErrorTextIs(err);
  }
}
