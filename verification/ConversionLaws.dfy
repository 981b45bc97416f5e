/** What each conversion of a format puts, wherever in a format it stands: said about the text that comes out, with
    numbers in the positional notation of module Numerals.
 */
module ConversionLaws {
  import opened Wrappers
  import opened Numerals
  import opened Strings
  import opened Format
  import opened FormatLaws

  // ---------- numerals ----------

  lemma {:induction false} ValueIs(t: string, ds: seq<nat>, base: nat)
    requires Spells(t, ds, base)
    ensures (forall i :: 0 <= i < |t| ==> IsDigit(t[i], base)) && Value(t, base) == Positional(ds, base)
    decreases |t|
  {
    forall i | 0 <= i < |t| ensures IsDigit(t[i], base) {
      WorthIs(t[i], ds[i]);
    }
    if t != "" {
      var n := |t| - 1;
      ValueIs(t[..n], ds[..n], base);
      assert ds == ds[..n] + [ds[n]];
      PositionalOn(ds[..n], ds[n], base);
      WorthIs(t[n], ds[n]);
    } else {
      assert ds == [];
    }
  }

  lemma DigitIs(d: nat)
    requires d < 16
    ensures Small(Digit(d), d)
  {
  }

  lemma {:induction false} TextWritten(num: nat, base: nat) returns (ds: seq<nat>)
    requires 2 <= base <= 16
    ensures WrittenAs(Text(num, base), ds, num, base, 0, ' ') && (ds[0] == 0 ==> num == 0)
    decreases num
  {
    if num >= base {
      var front := TextWritten(Quot(num, base), base);
      Divided(num, base);
      DigitIs(Rem(num, base));
      PositionalOn(front, Rem(num, base), base);
      ds := front + [Rem(num, base)];
      QuotPositive(num, base);
    } else {
      ds := [num];
      DigitIs(num);
      assert [num][1..] == [] && Power(base, 0) == 1;
    }
  }

  lemma QuotPositive(num: nat, base: nat)
    requires num >= base > 0
    ensures Quot(num, base) > 0
  {
  }

  /** printnum puts the number in a field of that width. */
  lemma NumWritten(num: nat, base: nat, width: int, padc: char)
    requires 2 <= base <= 16
    ensures Written(PrintNum(num, base, width, padc), num, base, width, padc)
  {
    var ds := TextWritten(num, base);
    Printed(num, base, width, padc);
    assert WrittenAs(PrintNum(num, base, width, padc), ds, num, base, width, padc);
  }

  // ---------- escapes ----------

  /** Brings a predicate to the verifier's attention, which keeps it out of proofs that do not look at it. */
  ghost predicate Look(s: string) { true }

  /** What a format puts from i on is text, and then what it puts from end on. */
  ghost predicate Puts(fmt: string, i: nat, args: seq<Arg>, next: nat, text: string, end: nat, after: nat) {
    forall f {:trigger Look(f)} :: Look(f) && f == fmt ==>
      i <= |f| && end <= |f| && Format.Format(f, i, args, next) == text + Format.Format(f, end, args, after)
  }

  lemma PutsIs(fmt: string, i: nat, args: seq<Arg>, next: nat, text: string, end: nat, after: nat)
    ensures Puts(fmt, i, args, next, text, end, after) <==>
      i <= |fmt| && end <= |fmt| && Format.Format(fmt, i, args, next) == text + Format.Format(fmt, end, args, after)
  {
    assert Look(fmt);
  }

  /** A format that is all one escape puts just that. */
  lemma PutsAll(fmt: string, args: seq<Arg>, text: string, after: nat)
    requires Puts(fmt, 0, args, 0, text, |fmt|, after)
    ensures Format.Format(fmt, 0, args, 0) == text
  {
    PutsIs(fmt, 0, args, 0, text, |fmt|, after);
    FormatEnd(fmt, args, after);
  }

  /** w is nothing, or a number in decimal that does not start with 0. */
  ghost predicate Field(w: string, width: int) {
    (if w == "" then width == -1
     else w[0] != '0' && exists ds :: Spells(w, ds, 10) && Positional(ds, 10) == width) == true
  }

  lemma FieldDigits(w: string, width: int)
    requires w != "" && Field(w, width)
    ensures (forall k :: 0 <= k < |w| ==> '0' <= w[k] <= '9') && w[0] != '0'
    ensures (forall k :: 0 <= k < |w| ==> IsDigit(w[k], 10)) && width == Value(w, 10)
  {
    var ds :| Spells(w, ds, 10) && Positional(ds, 10) == width;
    ValueIs(w, ds, 10);
    forall k | 0 <= k < |w| ensures '0' <= w[k] <= '9' {
      WorthIs(w[k], ds[k]);
    }
  }

  lemma FieldRead(fmt: string, i: nat, j: nat, width: int)
    requires i < j <= |fmt| && Field(fmt[i..j], width) && !('0' <= CharAt(fmt, j) <= '9')
    ensures width >= 0 && '1' <= fmt[i] <= '9' && Number(fmt, i + 1, fmt[i] as int - '0' as int) == (width, j)
  {
    FieldChars(fmt, i, j, width);
    NumberAll(fmt, i, j, width);
  }

  lemma NumberAll(fmt: string, i: nat, j: nat, width: int)
    requires i < j <= |fmt| && !('0' <= CharAt(fmt, j) <= '9') && forall k :: i <= k < j ==> '0' <= fmt[k] <= '9'
    requires (forall k :: 0 <= k < j - i ==> IsDigit(fmt[i..j][k], 10)) && width == Value(fmt[i..j], 10)
    ensures width >= 0 && Number(fmt, i + 1, fmt[i] as int - '0' as int) == (width, j)
  {
    NumberRead(fmt, i, j);
    NumberStops(fmt, j, width);
  }

  lemma FieldChars(fmt: string, i: nat, j: nat, width: int)
    requires i < j <= |fmt| && Field(fmt[i..j], width)
    ensures (forall k :: i <= k < j ==> '0' <= fmt[k] <= '9') && fmt[i] != '0'
    ensures (forall k :: 0 <= k < j - i ==> IsDigit(fmt[i..j][k], 10)) && width == Value(fmt[i..j], 10)
  {
    FieldDigits(fmt[i..j], width);
    CharsAre(fmt, i, j, fmt[i..j]);
  }

  lemma NumberStops(fmt: string, j: nat, acc: nat)
    requires j <= |fmt| && !('0' <= CharAt(fmt, j) <= '9')
    ensures Number(fmt, j, acc) == (acc, j)
  {
  }

  lemma CharsAre(fmt: string, i: nat, j: nat, t: string)
    requires i <= j <= |fmt| && fmt[i..j] == t
    ensures |t| == j - i && forall k {:trigger fmt[k]} :: i <= k < j ==> fmt[k] == t[k - i]
  {
    assert forall k {:trigger fmt[k]} :: i <= k < j ==> fmt[i..j][k - i] == fmt[k];
  }

  lemma FieldParsed(fmt: string, i: nat, j: nat, width: int, sp: Spec, args: seq<Arg>)
    requires i <= j <= |fmt| && Field(fmt[i..j], width) && !('0' <= CharAt(fmt, j) <= '9')
    ensures Parse(fmt, i, sp, args) == if i == j then Parse(fmt, j, sp, args)
                                       else Parse(fmt, j, Process(sp, width), args)
  {
    if i < j { FieldRead(fmt, i, j, width); }
  }

  lemma {:induction false} LongsParsed(fmt: string, i: nat, j: nat, sp: Spec, args: seq<Arg>)
    requires i <= j <= |fmt| && forall k :: i <= k < j ==> fmt[k] == 'l'
    ensures Parse(fmt, i, sp, args) == Parse(fmt, j, sp.(lflag := sp.lflag + (j - i)), args)
    decreases j - i
  {
    if i < j { LongsParsed(fmt, i + 1, j, sp.(lflag := sp.lflag + 1), args); }
  }

  /** At i there is the conversion ch of a number: "%", a "0" or not, a width from b to c or none, "l"s up to d, and
      ch. */
  ghost predicate NumberAt(fmt: string, i: nat, zero: bool, b: nat, c: nat, d: nat, width: int, ch: char) {
    (b == (if zero then i + 2 else i + 1) && b <= c <= d < |fmt| && fmt[i] == '%' && (zero ==> fmt[i + 1] == '0')
     && Field(fmt[b..c], width) && (forall k :: c <= k < d ==> fmt[k] == 'l') && fmt[d] == ch) == true
  }

  /** What vprintfmt takes from it. */
  function NumberSpec(zero: bool, width: int, longs: nat, next: nat): Spec {
    Spec(if zero then '0' else ' ', width, -1, longs, false, next)
  }

  lemma FlagParsed(fmt: string, i: nat, zero: bool, sp: Spec, args: seq<Arg>)
    requires i < |fmt| && (zero ==> fmt[i] == '0')
    ensures Parse(fmt, i, sp, args) ==
        if zero then Parse(fmt, i + 1, sp.(padc := '0'), args) else Parse(fmt, i, sp, args)
  {
  }

  lemma LastParsed(fmt: string, i: nat, sp: Spec, args: seq<Arg>)
    requires i < |fmt| && IsConversion(fmt[i])
    ensures Parse(fmt, i, sp, args) == Escape(fmt[i], i + 1, sp)
  {
  }

  /** The escape at i is one of conversion ch, and is over at end. */
  ghost predicate EscapeIs(fmt: string, i: nat, args: seq<Arg>, next: nat, ch: char, end: nat, sp: Spec) {
    forall f {:trigger Look(f)} :: Look(f) && f == fmt ==>
      i < |f| && f[i] == '%' && end <= |f| && Parse(f, i + 1, FreshSpec(next), args) == Escape(ch, end, sp)
  }

  lemma NumberParsed(fmt: string, i: nat, zero: bool, b: nat, c: nat, d: nat, width: int, ch: char,
      args: seq<Arg>, next: nat)
    requires NumberAt(fmt, i, zero, b, c, d, width, ch) && IsConversion(ch)
    ensures EscapeIs(fmt, i, args, next, ch, d + 1, NumberSpec(zero, width, d - c, next))
  {
    FlagParsed(fmt, i + 1, zero, FreshSpec(next), args);
    WidthLongs(fmt, b, c, d, width, FreshSpec(next).(padc := if zero then '0' else ' '), args);
  }

  lemma FreshParsed(fmt: string, i: nat, j: nat, width: int, sp: Spec, args: seq<Arg>)
    requires i <= j <= |fmt| && Field(fmt[i..j], width) && !('0' <= CharAt(fmt, j) <= '9')
    requires sp.width == sp.precision == -1
    ensures Parse(fmt, i, sp, args) == Parse(fmt, j, sp.(width := width), args)
  {
    FieldParsed(fmt, i, j, width, sp, args);
    if i == j { assert fmt[i..j] == ""; }
  }

  lemma WidthLongs(fmt: string, b: nat, c: nat, d: nat, width: int, sp: Spec, args: seq<Arg>)
    requires b <= c <= d < |fmt| && Field(fmt[b..c], width) && (forall k :: c <= k < d ==> fmt[k] == 'l')
    requires IsConversion(fmt[d]) && sp.width == sp.precision == -1 && sp.lflag == 0
    ensures Parse(fmt, b, sp, args) == Escape(fmt[d], d + 1, sp.(width := width, lflag := d - c))
  {
    assert CharAt(fmt, c) == if c < d then 'l' else fmt[d];
    FreshParsed(fmt, b, c, width, sp, args);
    LongsParsed(fmt, c, d, sp.(width := width), args);
    LastParsed(fmt, d, sp.(width := width, lflag := d - c), args);
  }

  /** text is what the conversion puts. */
  ghost predicate Conversion(ch: char, sp: Spec, arg: Arg, text: string) {
    forall t {:trigger Look(t)} :: Look(t) && t == text ==> IsConversion(ch) && t == Converted(ch, sp, arg)
  }

  lemma ConversionIs(ch: char, sp: Spec, arg: Arg, text: string)
    requires IsConversion(ch)
    ensures Conversion(ch, sp, arg, text) <==> text == Converted(ch, sp, arg)
  {
    assert Look(text);
  }

  lemma EscapeIsParsed(fmt: string, i: nat, args: seq<Arg>, next: nat, ch: char, end: nat, sp: Spec)
    requires EscapeIs(fmt, i, args, next, ch, end, sp)
    ensures i < |fmt| && fmt[i] == '%' && end <= |fmt|
    ensures Parse(fmt, i + 1, FreshSpec(next), args) == Escape(ch, end, sp)
  {
    assert Look(fmt);
  }

  lemma ConvertedPuts(fmt: string, i: nat, args: seq<Arg>, next: nat, ch: char, end: nat, sp: Spec, text: string)
    requires EscapeIs(fmt, i, args, next, ch, end, sp) && IsConversion(ch) && ch != '%'
    requires text == Converted(ch, sp, Slot(args, sp.next))
    ensures Puts(fmt, i, args, next, text, end, sp.next + 1)
  {
    EscapeIsParsed(fmt, i, args, next, ch, end, sp);
    FormatKnown(fmt, i, args, next, Escape(ch, end, sp));
    PutsIs(fmt, i, args, next, text, end, sp.next + 1);
  }

  /** A conversion that takes an argument. */
  lemma KnownPut(fmt: string, i: nat, args: seq<Arg>, next: nat, ch: char, end: nat, sp: Spec, arg: Arg,
      after: nat) returns (text: string)
    requires EscapeIs(fmt, i, args, next, ch, end, sp) && IsConversion(ch) && ch != '%'
    requires arg == Slot(args, sp.next) && after == sp.next + 1
    ensures Conversion(ch, sp, arg, text)
    ensures Puts(fmt, i, args, next, text, end, after)
  {
    text := Converted(ch, sp, arg);
    ConversionIs(ch, sp, arg, text);
    ConvertedPuts(fmt, i, args, next, ch, end, sp, text);
  }

  lemma NumberKnown(fmt: string, i: nat, zero: bool, c: nat, d: nat, width: int, ch: char, args: seq<Arg>, next: nat)
      returns (text: string)
    requires c <= d && EscapeIs(fmt, i, args, next, ch, d + 1, NumberSpec(zero, width, d - c, next))
    requires IsConversion(ch) && ch != '%'
    ensures Conversion(ch, NumberSpec(zero, width, d - c, next), Slot(args, next), text)
    ensures Puts(fmt, i, args, next, text, d + 1, next + 1)
  {
    text := KnownPut(fmt, i, args, next, ch, d + 1, NumberSpec(zero, width, d - c, next), Slot(args, next),
        next + 1);
  }

  lemma NumberPut(fmt: string, i: nat, zero: bool, b: nat, c: nat, d: nat, width: int, ch: char,
      args: seq<Arg>, next: nat) returns (text: string)
    requires NumberAt(fmt, i, zero, b, c, d, width, ch) && IsConversion(ch) && ch != '%'
    ensures c <= d && Conversion(ch, NumberSpec(zero, width, d - c, next), Slot(args, next), text)
    ensures Puts(fmt, i, args, next, text, d + 1, next + 1)
  {
    NumberParsed(fmt, i, zero, b, c, d, width, ch, args, next);
    text := NumberKnown(fmt, i, zero, c, d, width, ch, args, next);
  }

  // ---------- numbers ----------

  /** %o, %u and %x put the low 32 bits of their argument, or with an 'l' all 64, in base 8, 10 and 16, and strtol reads
      that to its end, as a long keeps it. */
  lemma UnsignedPut(fmt: string, i: nat, zero: bool, b: nat, c: nat, d: nat, width: int, ch: char, base: nat,
      args: seq<Arg>, next: nat) returns (text: string)
    requires NumberAt(fmt, i, zero, b, c, d, width, ch) && next < |args|
    requires (ch == 'o' && base == 8) || (ch == 'u' && base == 10) || (ch == 'x' && base == 16)
    ensures Puts(fmt, i, args, next, text, d + 1, next + 1)
    ensures var num := args[next].word % (if c == d then 0x1_0000_0000 else 0x1_0000_0000_0000_0000);
      && Written(text, num, base, width, if zero then '0' else ' ')
      && exists val :: Wraps(val, num, 0x1_0000_0000_0000_0000) && Reads(text, base, val, |text|)
  {
    text := NumberPut(fmt, i, zero, b, c, d, width, ch, args, next);
    var num := GetUInt(args[next].word, d - c);
    var padc := if zero then '0' else ' ';
    UnsignedConverted(ch, base, NumberSpec(zero, width, d - c, next), args[next], text);
    NumWritten(num, base, width, padc);
    NumberRead64(num, base, width, padc, text);
  }

  lemma UnsignedConverted(ch: char, base: nat, sp: Spec, arg: Arg, text: string)
    requires (ch == 'o' && base == 8) || (ch == 'u' && base == 10) || (ch == 'x' && base == 16)
    requires Conversion(ch, sp, arg, text)
    ensures text == PrintNum(GetUInt(arg.word, sp.lflag), base, sp.width, sp.padc)
  {
    ConversionIs(ch, sp, arg, text);
  }

  lemma NumberRead64(num: nat, base: nat, width: int, padc: char, text: string)
    requires base in {8, 10, 16} && (padc == ' ' || padc == '0') && text == PrintNum(num, base, width, padc)
    ensures Wraps(Long(num), num, 0x1_0000_0000_0000_0000) && Reads(text, base, Long(num), |text|)
  {
    NumberRoundTrip(num, base, width, padc);
    LongWraps(num, Long(num));
    ReadsIs(text, base, Long(num), |text|);
  }

  lemma IntWraps(word: nat)
    ensures Wraps(AsInt(word), word, 0x1_0000_0000)
  {
  }

  /** %d puts the signed number in the low 32 bits of its argument, or with an 'l' in all 64: a sign, and then the
      digits in the field. strtol reads it to its end if and only if no blank follows the sign. */
  lemma SignedPut(fmt: string, i: nat, zero: bool, b: nat, c: nat, d: nat, width: int, args: seq<Arg>,
      next: nat) returns (text: string, n: int)
    requires NumberAt(fmt, i, zero, b, c, d, width, 'd') && next < |args|
    ensures Puts(fmt, i, args, next, text, d + 1, next + 1)
    ensures Wraps(n, args[next].word, if c == d then 0x1_0000_0000 else 0x1_0000_0000_0000_0000)
    ensures SignedText(text, n, width, if zero then '0' else ' ')
    ensures Reads(text, 10, n, |text|) <==> !(n < 0 && text[1] == ' ')
  {
    text := NumberPut(fmt, i, zero, b, c, d, width, 'd', args, next);
    n := GetInt(args[next].word, d - c);
    IntWraps(args[next].word);
    LongWraps(args[next].word, n);
    var padc := if zero then '0' else ' ';
    SignedConverted(NumberSpec(zero, width, d - c, next), args[next], text);
    NumWritten(if n < 0 then -n else n, 10, width, padc);
    SignedIs(n, width, padc, text);
    SignedReadsIf(n, width, padc, text);
  }

  lemma SignedConverted(sp: Spec, arg: Arg, text: string)
    requires Conversion('d', sp, arg, text)
    ensures text == Decimal(GetInt(arg.word, sp.lflag), sp.width, sp.padc)
  {
    ConversionIs('d', sp, arg, text);
  }

  ghost predicate SignedText(text: string, n: int, width: int, padc: char) {
    if n < 0 then |text| > 1 && text[0] == '-' && Written(text[1..], -n, 10, width, padc)
    else text != "" && Written(text, n, 10, width, padc)
  }

  lemma SignedIs(n: int, width: int, padc: char, text: string)
    requires text == Decimal(n, width, padc)
    requires Written(PrintNum(if n < 0 then -n else n, 10, width, padc), if n < 0 then -n else n, 10, width, padc)
    ensures SignedText(text, n, width, padc)
  {
    if n < 0 { assert text[1..] == PrintNum(-n, 10, width, padc); }
  }

  lemma SignedReadsIf(n: int, width: int, padc: char, text: string)
    requires text == Decimal(n, width, padc) && SignedText(text, n, width, padc) && (padc == ' ' || padc == '0')
    requires -0x8000_0000_0000_0000 <= n < 0x8000_0000_0000_0000
    ensures Reads(text, 10, n, |text|) <==> !(n < 0 && text[1] == ' ')
  {
    ReadsIs(text, 10, n, |text|);
    if n < 0 {
      NegativeRoundTrip(n, width, padc);
      Printed(-n, 10, width, padc);
      assert text[1] == PrintNum(-n, 10, width, padc)[0];
      assert IsDigit(Text(-n, 10)[0], 10);
    } else {
      NumberRoundTrip(n, 10, width, padc);
    }
  }

  /** %p puts "0x" and then all 64 bits of its argument in base 16; strtol reads what comes after "0x". */
  lemma PointerPut(fmt: string, i: nat, zero: bool, b: nat, c: nat, d: nat, width: int, args: seq<Arg>,
      next: nat) returns (text: string)
    requires NumberAt(fmt, i, zero, b, c, d, width, 'p') && next < |args|
    ensures Puts(fmt, i, args, next, "0x" + text, d + 1, next + 1)
    ensures var num := args[next].word % 0x1_0000_0000_0000_0000;
      && Written(text, num, 16, width, if zero then '0' else ' ')
      && exists val :: Wraps(val, num, 0x1_0000_0000_0000_0000) && Reads(text, 16, val, |text|)
  {
    var all := NumberPut(fmt, i, zero, b, c, d, width, 'p', args, next);
    var num := GetUInt(args[next].word, 2);
    var padc := if zero then '0' else ' ';
    text := PrintNum(num, 16, width, padc);
    ConversionIs('p', NumberSpec(zero, width, d - c, next), args[next], all);
    assert all == "0x" + text;
    NumWritten(num, 16, width, padc);
    NumberRead64(num, 16, width, padc, text);
  }

  // ---------- characters and errors ----------

  /** %c puts the character with the low byte of its argument, and %% a "%", which takes no argument. */
  lemma CharPut(fmt: string, i: nat, args: seq<Arg>, next: nat)
    requires i + 2 <= |fmt| && fmt[i] == '%'
    ensures fmt[i + 1] == 'c' && next < |args| ==>
      Format.Format(fmt, i, args, next) ==
          [(args[next].word % 256) as char] + Format.Format(fmt, i + 2, args, next + 1)
    ensures fmt[i + 1] == '%' ==>
      Format.Format(fmt, i, args, next) == "%" + Format.Format(fmt, i + 2, args, next)
  {
    if fmt[i + 1] == 'c' || fmt[i + 1] == '%' {
      assert Parse(fmt, i + 1, FreshSpec(next), args) == Escape(fmt[i + 1], i + 2, FreshSpec(next));
      FormatKnown(fmt, i, args, next, Escape(fmt[i + 1], i + 2, FreshSpec(next)));
    }
  }

  /** The messages that %e knows, by number. */
  predicate Message(k: nat, text: string) {
    && (k == 1 ==> text == "unspecified error")
    && (k == 2 ==> text == "bad process")
    && (k == 3 ==> text == "invalid parameter")
    && (k == 4 ==> text == "out of memory")
    && (k == 5 ==> text == "out of processes")
    && (k == 6 ==> text == "segmentation fault")
    && (k == 8 ==> text == "invalid elf file")
    && (k == 9 ==> text == "process is killed")
    && (k == 10 ==> text == "panic failure")
    && (k == 13 ==> text == "no such device")
    && (k == 14 ==> text == "device not available")
    && (k == 15 ==> text == "device/file is busy")
    && (k == 16 ==> text == "no such file or directory")
    && (k == 17 ==> text == "is a directory")
    && (k == 18 ==> text == "not a directory")
    && (k == 19 ==> text == "cross device link")
    && (k == 20 ==> text == "unimplemented feature")
    && (k == 21 ==> text == "illegal seek")
    && (k == 22 ==> text == "too many files are open")
    && (k == 23 ==> text == "file or directory already exists")
    && (k == 24 ==> text == "directory is not empty")
  }

  /** What %e puts for a number without its sign: its message, or "error" and the number where there is none. */
  ghost predicate Explains(k: nat, text: string) {
    && Message(k, text)
    && (k in {0, 7, 11, 12} || k > 24 ==> |text| > 6 && text[..6] == "error " && Written(text[6..], k, 10, -1, ' '))
  }

  lemma MessageIs(k: nat, text: string)
    requires if ErrorString(k).Some? then text == ErrorString(k).value else k in {0, 7, 11, 12} || k > 24
    ensures Message(k, text)
  {
  }

  lemma NoMessage(k: nat)
    ensures ErrorString(k) == None <==> k in {0, 7, 11, 12} || k > 24
  {
  }

  lemma ErrorExplained(n: int)
    requires -0x8000_0000 < n < 0x8000_0000
    ensures Explains(if n < 0 then -n else n, ErrorText(n))
  {
    var k := if n < 0 then -n else n;
    ErrorTextIs(n);
    SmallInt(k);
    NoMessage(k);
    MessageIs(k, ErrorText(n));
    if ErrorString(k) == None { NumberedError(k, ErrorText(n)); }
  }

  lemma ErrorParsed(fmt: string, i: nat, args: seq<Arg>, next: nat)
    requires i + 2 <= |fmt| && fmt[i] == '%' && fmt[i + 1] == 'e'
    ensures EscapeIs(fmt, i, args, next, 'e', i + 2, FreshSpec(next))
  {
    LastParsed(fmt, i + 1, FreshSpec(next), args);
  }

  lemma ErrorConverted(sp: Spec, arg: Arg, text: string)
    requires Conversion('e', sp, arg, text)
    ensures text == ErrorText(AsInt(arg.word))
  {
    ConversionIs('e', sp, arg, text);
  }

  /** %e explains the number in the low 32 bits of its argument, of either sign. The least number has no other sign; it
      is left out. */
  lemma ErrorPut(fmt: string, i: nat, args: seq<Arg>, next: nat, n: int) returns (text: string)
    requires i + 2 <= |fmt| && fmt[i] == '%' && fmt[i + 1] == 'e' && next < |args|
    requires Wraps(n, args[next].word, 0x1_0000_0000) && n != -0x8000_0000
    ensures Puts(fmt, i, args, next, text, i + 2, next + 1)
    ensures Explains(if n < 0 then -n else n, text)
  {
    ErrorParsed(fmt, i, args, next);
    text := KnownPut(fmt, i, args, next, 'e', i + 2, FreshSpec(next), args[next], next + 1);
    SameInt(args[next].word, n);
    ErrorConverted(FreshSpec(next), args[next], text);
    ErrorExplained(n);
  }

  lemma SameInt(word: nat, n: int)
    requires Wraps(n, word, 0x1_0000_0000)
    ensures AsInt(word) == n
  {
  }

  lemma NumberedError(k: nat, text: string)
    requires text == "error " + Decimal(k, -1, ' ')
    ensures |text| > 6 && text[..6] == "error " && Written(text[6..], k, 10, -1, ' ')
  {
    NumWritten(k, 10, -1, ' ');
    assert text[6..] == PrintNum(k, 10, -1, ' ');
  }

  /** "%" with any other character behind it, but those of a flag or a width, comes out as it is. */
  lemma UnknownPut(fmt: string, i: nat, args: seq<Arg>, next: nat)
    requires i + 1 < |fmt| && fmt[i] == '%' && fmt[i + 1] != NUL && !('0' <= fmt[i + 1] <= '9')
    requires fmt[i + 1] !in ['-', '*', '.', '#', 'l', 'c', 'e', 's', 'd', 'u', 'o', 'p', 'x', '%']
    ensures Puts(fmt, i, args, next, [fmt[i], fmt[i + 1]], i + 2, next)
  {
    NotKnown(fmt[i + 1]);
    OtherParsed(fmt, i + 1, FreshSpec(next), args);
    UnknownEscape(fmt, i, args, next);
    assert fmt[i..i + 2] == [fmt[i], fmt[i + 1]];
    PutsIs(fmt, i, args, next, [fmt[i], fmt[i + 1]], i + 2, next);
  }

  lemma NotKnown(c: char)
    requires c !in ['-', '*', '.', '#', 'l', 'c', 'e', 's', 'd', 'u', 'o', 'p', 'x', '%']
    ensures !IsConversion(c) && c != '-' && c != '*' && c != '.' && c != '#' && c != 'l'
  {
  }

  lemma OtherParsed(fmt: string, i: nat, sp: Spec, args: seq<Arg>)
    requires i < |fmt| && !('0' <= fmt[i] <= '9')
    requires fmt[i] != '-' && fmt[i] != '*' && fmt[i] != '.' && fmt[i] != '#' && fmt[i] != 'l'
    ensures Parse(fmt, i, sp, args) == Escape(fmt[i], i + 1, sp)
  {
  }

  // ---------- strings ----------

  /** At i there is the conversion of a string: "%", a "-" or not, a "#" or not, a width from b to c or none, a dot or
      not, and behind it a precision from d to e or none, and "s". */
  ghost predicate StringAt(fmt: string, i: nat, left: bool, mask: bool, b: nat, c: nat, width: int, dot: bool, d: nat,
      e: nat, prec: int) {
    var a := if left then i + 2 else i + 1;
    (b == (if mask then a + 1 else a) && b <= c && d == (if dot then c + 1 else c) && d <= e < |fmt|
     && fmt[i] == '%' && (left ==> fmt[i + 1] == '-') && (mask ==> fmt[a] == '#') && (dot ==> fmt[c] == '.')
     && Field(fmt[b..c], width) && Field(fmt[d..e], prec) && (d < e ==> dot) && fmt[e] == 's') == true
  }

  /** What vprintfmt takes from it. */
  function StringSpec(left: bool, mask: bool, width: int, dot: bool, prec: int, next: nat): Spec {
    Spec(if left then '-' else ' ', if dot && width < 0 then 0 else width, prec, 0, mask, next)
  }

  lemma SideParsed(fmt: string, i: nat, left: bool, sp: Spec, args: seq<Arg>)
    requires i < |fmt| && (left ==> fmt[i] == '-')
    ensures Parse(fmt, i, sp, args) ==
        if left then Parse(fmt, i + 1, sp.(padc := '-'), args) else Parse(fmt, i, sp, args)
  {
  }

  lemma MaskParsed(fmt: string, i: nat, mask: bool, sp: Spec, args: seq<Arg>)
    requires i < |fmt| && (mask ==> fmt[i] == '#')
    ensures Parse(fmt, i, sp, args) ==
        if mask then Parse(fmt, i + 1, sp.(alt := true), args) else Parse(fmt, i, sp, args)
  {
  }

  lemma DotParsed(fmt: string, i: nat, dot: bool, sp: Spec, args: seq<Arg>)
    requires i < |fmt| && (dot ==> fmt[i] == '.')
    ensures Parse(fmt, i, sp, args) ==
        if dot then Parse(fmt, i + 1, if sp.width < 0 then sp.(width := 0) else sp, args) else Parse(fmt, i, sp, args)
  {
  }

  lemma PrecisionParsed(fmt: string, i: nat, j: nat, prec: int, sp: Spec, args: seq<Arg>)
    requires i <= j < |fmt| && Field(fmt[i..j], prec) && fmt[j] == 's' && (i < j ==> sp.width >= 0)
    requires sp.precision == -1
    ensures Parse(fmt, i, sp, args) == Escape('s', j + 1, sp.(precision := prec))
  {
    FieldParsed(fmt, i, j, prec, sp, args);
    if i == j { assert fmt[i..j] == ""; }
    LastParsed(fmt, j, sp.(precision := prec), args);
  }

  lemma StringParsed(fmt: string, i: nat, left: bool, mask: bool, b: nat, c: nat, width: int, dot: bool, d: nat,
      e: nat, prec: int, args: seq<Arg>, next: nat)
    requires StringAt(fmt, i, left, mask, b, c, width, dot, d, e, prec)
    ensures EscapeIs(fmt, i, args, next, 's', e + 1, StringSpec(left, mask, width, dot, prec, next))
  {
    var a := if left then i + 2 else i + 1;
    var sp := FreshSpec(next).(padc := if left then '-' else ' ');
    SideParsed(fmt, i + 1, left, FreshSpec(next), args);
    MaskParsed(fmt, a, mask, sp, args);
    FreshParsed(fmt, b, c, width, sp.(alt := mask), args);
    DotParsed(fmt, c, dot, sp.(alt := mask, width := width), args);
    PrecisionParsed(fmt, d, e, prec, StringSpec(left, mask, width, dot, -1, next), args);
  }

  /** text holds the first characters of s, as many as prec says if that is not negative, in a field of that width, at
      its left end or its right one; "?" stands for what is not printable if that is hidden. */
  ghost predicate Fielded(text: string, s: string, left: bool, mask: bool, width: int, prec: int) {
    var n := if 0 <= prec < |s| then prec else |s|;
    var at := if left || width <= n then 0 else width - n;
    (|text| == (if width > n then width else n)
     && (forall k :: 0 <= k < n ==> text[at + k] == if mask && (s[k] < ' ' || '~' < s[k]) then '?' else s[k])
     && (forall k :: 0 <= k < at ==> text[k] == ' ') && (forall k :: at + n <= k < |text| ==> text[k] == ' ')) == true
  }

  function StringOf(arg: Arg): string {
    if arg.text.Some? then arg.text.value else "(null)"
  }

  /** %s puts its string, or "(null)" where there is none. */
  lemma StringPut(fmt: string, i: nat, left: bool, mask: bool, b: nat, c: nat, width: int, dot: bool, d: nat,
      e: nat, prec: int, args: seq<Arg>, next: nat) returns (text: string)
    requires StringAt(fmt, i, left, mask, b, c, width, dot, d, e, prec) && next < |args|
    ensures Puts(fmt, i, args, next, text, e + 1, next + 1)
    ensures Fielded(text, StringOf(args[next]), left, mask, width, prec)
  {
    StringParsed(fmt, i, left, mask, b, c, width, dot, d, e, prec, args, next);
    text := StringKnown(fmt, i, left, mask, width, dot, prec, e + 1, args, next);
    StringFielded(left, mask, width, dot, prec, args[next], next, text);
  }

  lemma StringFielded(left: bool, mask: bool, width: int, dot: bool, prec: int, arg: Arg, next: nat, text: string)
    requires Conversion('s', StringSpec(left, mask, width, dot, prec, next), arg, text)
    ensures Fielded(text, StringOf(arg), left, mask, width, prec)
  {
    ConversionIs('s', StringSpec(left, mask, width, dot, prec, next), arg, text);
    TextFielded(StringOf(arg), left, mask, width, dot, prec, next);
  }

  lemma StringKnown(fmt: string, i: nat, left: bool, mask: bool, width: int, dot: bool, prec: int, end: nat,
      args: seq<Arg>, next: nat) returns (text: string)
    requires EscapeIs(fmt, i, args, next, 's', end, StringSpec(left, mask, width, dot, prec, next)) && next < |args|
    ensures Conversion('s', StringSpec(left, mask, width, dot, prec, next), args[next], text)
    ensures Puts(fmt, i, args, next, text, end, next + 1)
  {
    text := KnownPut(fmt, i, args, next, 's', end, StringSpec(left, mask, width, dot, prec, next), args[next],
        next + 1);
  }

  lemma FieldIs(l: string, m: string, r: string, s: string, left: bool, mask: bool, width: int, prec: int)
    requires m == Shown(s[..Taken(s, prec)], mask)
    requires |l| == (if left || width <= |m| then 0 else width - |m|) && forall k :: 0 <= k < |l| ==> l[k] == ' '
    requires |r| == (if left && width > |m| then width - |m| else 0) && forall k :: 0 <= k < |r| ==> r[k] == ' '
    ensures Fielded(l + m + r, s, left, mask, width, prec)
  {
  }

  lemma TextFielded(s: string, left: bool, mask: bool, width: int, dot: bool, prec: int, next: nat)
    ensures Fielded(StringText(s, StringSpec(left, mask, width, dot, prec, next)), s, left, mask, width, prec)
  {
    var sp := StringSpec(left, mask, width, dot, prec, next);
    var n := Taken(s, prec);
    var l := if left then "" else Repeat(' ', sp.width - n);
    var r := if left then Repeat(' ', sp.width - n) else "";
    FieldIs(l, Shown(s[..n], mask), r, s, left, mask, width, prec);
  }

  // ---------- arguments ----------

  /** A "*" takes a width from the arguments, before the number; a negative one is none. */
  lemma StarPut(fmt: string, i: nat, args: seq<Arg>, next: nat, width: int, n: int) returns (text: string)
    requires i + 3 <= |fmt| && fmt[i] == '%' && fmt[i + 1] == '*' && fmt[i + 2] == 'd' && next + 1 < |args|
    requires Wraps(width, args[next].word, 0x1_0000_0000) && Wraps(n, args[next + 1].word, 0x1_0000_0000)
    ensures Puts(fmt, i, args, next, text, i + 3, next + 2)
    ensures SignedText(text, n, width, ' ')
  {
    var sp := FreshSpec(next).(width := width, next := next + 1);
    SameInt(args[next].word, width);
    SameInt(args[next + 1].word, n);
    StarIs(fmt, i, args, next, sp);
    text := KnownPut(fmt, i, args, next, 'd', i + 3, sp, args[next + 1], next + 2);
    SignedConverted(sp, args[next + 1], text);
    NumWritten(if n < 0 then -n else n, 10, width, ' ');
    SignedIs(n, width, ' ', text);
  }

  lemma StarIs(fmt: string, i: nat, args: seq<Arg>, next: nat, sp: Spec)
    requires i + 3 <= |fmt| && fmt[i] == '%' && fmt[i + 1] == '*' && fmt[i + 2] == 'd' && next < |args|
    requires sp == FreshSpec(next).(width := AsInt(args[next].word), next := next + 1)
    ensures EscapeIs(fmt, i, args, next, 'd', i + 3, sp)
  {
    StarParsed(fmt, i + 1, args, next);
    LastParsed(fmt, i + 2, sp, args);
  }

  lemma StarParsed(fmt: string, i: nat, args: seq<Arg>, next: nat)
    requires i < |fmt| && fmt[i] == '*' && next < |args|
    ensures Parse(fmt, i, FreshSpec(next), args) ==
        Parse(fmt, i + 1, FreshSpec(next).(width := AsInt(args[next].word), next := next + 1), args)
  {
  }
}
