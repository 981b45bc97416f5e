/** Formatted output (lab8/libs/printfmt.c): what a format and its arguments
    stand for, and the methods that put it into a buffer of limited size.
 */
module Format {
  import opened Wrappers
  import opened Strings

  const E_INVAL: int := 3
  const MAXERROR: int := 24

  /** A variadic argument: a 64-bit word, and the C string it points to, if it is a pointer to one. */
  datatype Arg = Arg(word: nat, text: Option<string>)

  function Slot(args: seq<Arg>, k: nat): Arg {
    if k < |args| then args[k] else Arg(0, None)
  }

  function AsInt(word: nat): int {
    (word + 0x8000_0000) % 0x1_0000_0000 - 0x8000_0000
  }

  function GetUInt(word: nat, lflag: nat): (r: nat)
    ensures r < 0x1_0000_0000_0000_0000
  {
    if lflag > 0 then word % 0x1_0000_0000_0000_0000 else word % 0x1_0000_0000
  }

  function GetInt(word: nat, lflag: nat): int {
    if lflag > 0 then Long(word) else AsInt(word)
  }

  function ErrorString(err: int): (text: Option<string>)
    ensures text.Some? ==> 0 < err <= MAXERROR
  {
    if err == 1 then Some("unspecified error")
    else if err == 2 then Some("bad process")
    else if err == 3 then Some("invalid parameter")
    else if err == 4 then Some("out of memory")
    else if err == 5 then Some("out of processes")
    else if err == 6 then Some("segmentation fault")
    else if err == 8 then Some("invalid elf file")
    else if err == 9 then Some("process is killed")
    else if err == 10 then Some("panic failure")
    else if err == 13 then Some("no such device")
    else if err == 14 then Some("device not available")
    else if err == 15 then Some("device/file is busy")
    else if err == 16 then Some("no such file or directory")
    else if err == 17 then Some("is a directory")
    else if err == 18 then Some("not a directory")
    else if err == 19 then Some("cross device link")
    else if err == 20 then Some("unimplemented feature")
    else if err == 21 then Some("illegal seek")
    else if err == 22 then Some("too many files are open")
    else if err == 23 then Some("file or directory already exists")
    else if err == 24 then Some("directory is not empty")
    else None
  }

  // ---------- numbers ----------

  function Digit(d: nat): char
    requires d < 16
  {
    "0123456789abcdef"[d]
  }

  function Repeat(c: char, n: int): (s: string)
    ensures |s| == if n > 0 then n else 0
    ensures forall i :: 0 <= i < |s| ==> s[i] == c
  {
    if n <= 0 then "" else [c] + Repeat(c, n - 1)
  }

  // Quotient and remainder by taking away: this keeps division by a variable out of the proofs.

  function Quot(n: nat, base: nat): (q: nat)
    requires base > 0
    ensures n >= base >= 2 ==> q < n
  {
    if n < base then 0 else 1 + Quot(n - base, base)
  }

  function Rem(n: nat, base: nat): (r: nat)
    requires base > 0
    ensures r < base
  {
    if n < base then n else Rem(n - base, base)
  }

  lemma {:induction false} Divided(n: nat, base: nat)
    requires base > 0
    ensures n == Quot(n, base) * base + Rem(n, base)
  {
    if n >= base { Divided(n - base, base); }
  }

  lemma Multiple(k: int, base: int)
    requires k > 0 && base > 0
    ensures k * base >= base
  {
  }

  lemma NoMultiple(k: int, base: int, d: int)
    requires -base < d < base && k * base == d
    ensures k == 0
  {
    if k > 0 { Multiple(k, base); }
    if k < 0 { Multiple(-k, base); }
  }

  lemma DividedOnce(n: nat, base: nat, q: nat, r: nat)
    requires base > 0 && r < base && n == q * base + r
    ensures q == n / base && r == n % base
  {
    var q', r' := n / base, n % base;
    assert n == q' * base + r';
    assert (q - q') * base == q * base - q' * base;
    NoMultiple(q - q', base, r' - r);
  }

  /** do_div */
  method DoDiv(n: nat, base: nat) returns (quot: nat, res: nat)
    requires base > 0
    ensures quot == Quot(n, base) && res == Rem(n, base)
  {
    Divided(n, base);
    DividedOnce(n, base, Quot(n, base), Rem(n, base));
    quot, res := n / base, n % base;
  }

  /** What printnum puts. */
  function PrintNum(num: nat, base: nat, width: int, padc: char): string
    requires 2 <= base <= 16
  {
    if num >= base then PrintNum(Quot(num, base), base, width - 1, padc) + [Digit(Rem(num, base))]
    else Repeat(padc, width - 1) + [Digit(num)]
  }

  // ---------- escapes ----------

  /** What stands between a '%' and its conversion character; next is the argument to use. */
  datatype Spec = Spec(padc: char, width: int, precision: int, lflag: nat, alt: bool, next: nat)

  function FreshSpec(next: nat): Spec {
    Spec(' ', -1, -1, 0, false, next)
  }

  /** process_precision */
  function Process(sp: Spec, precision: int): Spec {
    if sp.width < 0 then sp.(width := precision, precision := -1) else sp.(precision := precision)
  }

  /** The rest of a number in decimal, after those digits that made acc; and where it ends. */
  function Number(fmt: string, i: nat, acc: nat): (r: (nat, nat))
    requires i <= |fmt|
    ensures i <= r.1 <= |fmt| && forall k :: i <= k < r.1 ==> '0' <= fmt[k] <= '9'
    decreases |fmt| - i
  {
    var ch := CharAt(fmt, i);
    if '0' <= ch <= '9' then Number(fmt, i + 1, acc * 10 + (ch as int - '0' as int)) else (acc, i)
  }

  /** A conversion character, the position past it, and what came before it. */
  datatype Escape = Escape(ch: char, end: nat, sp: Spec)

  /** The switch of vprintfmt from position i on, up to the conversion character. */
  function Parse(fmt: string, i: nat, sp: Spec, args: seq<Arg>): (e: Escape)
    requires i <= |fmt|
    ensures i < e.end <= |fmt| + 1 && e.ch == CharAt(fmt, e.end - 1)
    ensures forall k :: i <= k < e.end - 1 ==> fmt[k] != '%' && fmt[k] != NUL
    decreases |fmt| - i
  {
    var ch := CharAt(fmt, i);
    if ch == '-' then Parse(fmt, i + 1, sp.(padc := '-'), args)
    else if ch == '0' then Parse(fmt, i + 1, sp.(padc := '0'), args)
    else if '1' <= ch <= '9' then
      var n := Number(fmt, i + 1, ch as int - '0' as int);
      Parse(fmt, n.1, Process(sp, n.0), args)
    else if ch == '*' then Parse(fmt, i + 1, Process(sp.(next := sp.next + 1), AsInt(Slot(args, sp.next).word)), args)
    else if ch == '.' then Parse(fmt, i + 1, if sp.width < 0 then sp.(width := 0) else sp, args)
    else if ch == '#' then Parse(fmt, i + 1, sp.(alt := true), args)
    else if ch == 'l' then Parse(fmt, i + 1, sp.(lflag := sp.lflag + 1), args)
    else Escape(ch, i + 1, sp)
  }

  // ---------- conversions ----------

  /** '#' hides what is not printable. */
  function Shown(s: string, alt: bool): (r: string)
    ensures |r| == |s|
  {
    seq(|s|, i requires 0 <= i < |s| => if alt && (s[i] < ' ' || s[i] > '~') then '?' else s[i])
  }

  /** Characters of a string that %s puts. */
  function Taken(s: string, precision: int): nat {
    if 0 <= precision < |s| then precision else |s|
  }

  function StringText(s: string, sp: Spec): string {
    var n := Taken(s, sp.precision);
    (if sp.padc != '-' then Repeat(sp.padc, sp.width - n) else "") + Shown(s[..n], sp.alt)
    + (if sp.padc == '-' then Repeat(' ', sp.width - n) else "")
  }

  function Decimal(n: int, width: int, padc: char): string {
    if n < 0 then "-" + PrintNum(-n, 10, width, padc) else PrintNum(n, 10, width, padc)
  }

  function ErrorText(err: int): string {
    match ErrorString(if err < 0 then -err else err)
    case Some(text) => text
    case None => "error " + Decimal(AsInt((if err < 0 then -err else err) % 0x1_0000_0000), -1, ' ')
  }

  lemma ErrorTextIs(err: int)
    ensures var text := ErrorString(if err < 0 then -err else err);
      ErrorText(err) == if text.Some? then text.value
                        else "error " + Decimal(AsInt((if err < 0 then -err else err) % 0x1_0000_0000), -1, ' ')
  {
  }

  predicate IsConversion(ch: char) {
    ch in "cesduopx%"
  }

  /** What a conversion puts. */
  function Converted(ch: char, sp: Spec, arg: Arg): string
    requires IsConversion(ch)
  {
    if ch == 'c' then [(arg.word % 256) as char]
    else if ch == 'e' then ErrorText(AsInt(arg.word))
    else if ch == 's' then StringText(if arg.text.Some? then arg.text.value else "(null)", sp)
    else if ch == 'd' then Decimal(GetInt(arg.word, sp.lflag), sp.width, sp.padc)
    else if ch == 'u' then PrintNum(GetUInt(arg.word, sp.lflag), 10, sp.width, sp.padc)
    else if ch == 'o' then PrintNum(GetUInt(arg.word, sp.lflag), 8, sp.width, sp.padc)
    else if ch == 'p' then "0x" + PrintNum(GetUInt(arg.word, 2), 16, sp.width, sp.padc)
    else if ch == 'x' then PrintNum(GetUInt(arg.word, sp.lflag), 16, sp.width, sp.padc)
    else "%"
  }

  /** Every conversion but %% uses an argument up. */
  function NextArg(ch: char, sp: Spec): nat {
    if ch == '%' then sp.next else sp.next + 1
  }

  // ---------- formats ----------

  /** What vprintfmt puts from position i on, with next the first argument not used yet. After an escape that it does
      not know, it puts '%' and goes on with what came after that. */
  function Format(fmt: string, i: nat, args: seq<Arg>, next: nat): string
    requires i <= |fmt|
    decreases |fmt| - i
  {
    var ch := CharAt(fmt, i);
    if ch == NUL then ""
    else if ch != '%' then [ch] + Format(fmt, i + 1, args, next)
    else
      var e := Parse(fmt, i + 1, FreshSpec(next), args);
      if IsConversion(e.ch) then Converted(e.ch, e.sp, Slot(args, e.sp.next)) + Format(fmt, e.end, args,
          NextArg(e.ch, e.sp))
      else "%" + Format(fmt, i + 1, args, e.sp.next)
  }

  lemma FormatPlain(fmt: string, i: nat, args: seq<Arg>, next: nat)
    requires i < |fmt| && fmt[i] != '%' && fmt[i] != NUL
    ensures Format(fmt, i, args, next) == [fmt[i]] + Format(fmt, i + 1, args, next)
  {
  }
}
