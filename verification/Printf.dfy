/** vprintfmt and its buffer, step by step, against what Format says. */
module Printf {
  import opened Wrappers
  import opened Strings
  import opened Format

  /** struct sprintbuf: where the next character goes, where the last one may, and how many there were. */
  class SprintBuf {
    const str: array<char>
    const ebuf: nat
    var buf: nat
    var cnt: nat
    ghost var out: string          // everything put so far
    ghost const init: string       // what was in str at first

    /** The buffer holds the first ebuf characters of what was put, and nothing else changed. */
    ghost predicate Valid()
      reads this, str
    {
      && ebuf < str.Length && cnt == |out| && |init| == str.Length
      && buf == (if |out| < ebuf then |out| else ebuf)
      && str[..buf] == out[..buf] && str[buf..] == init[buf..]
    }

    constructor (str: array<char>, size: nat)
      requires 0 < size <= str.Length
      ensures Valid() && out == "" && this.str == str && ebuf == size - 1 && init == str[..]
    {
      this.str, ebuf, buf, cnt := str, size - 1, 0, 0;
      out, init := "", str[..];
    }

    /** sprintputch */
    method Put(ch: char)
      requires Valid()
      modifies this`buf, this`cnt, this`out, str
      ensures Valid() && out == old(out) + [ch]
    {
      cnt := cnt + 1;
      ghost var was := str[..];
      if buf < ebuf {
        str[buf] := ch;
        buf := buf + 1;
        assert str[..buf] == was[..buf - 1] + [ch];
        assert str[buf..] == was[buf - 1..][1..] && init[buf..] == init[buf - 1..][1..];
      }
      out := out + [ch];
    }

    /** The end of vsnprintf. */
    method Terminate()
      requires Valid()
      modifies str
      ensures str[..buf] == out[..buf] && str[buf] == NUL && str[buf + 1..] == init[buf + 1..]
    {
      ghost var was := str[..];
      str[buf] := NUL;
      assert str[..buf] == was[..buf];
      assert str[buf + 1..] == was[buf..][1..] && init[buf + 1..] == init[buf..][1..];
    }
  }

  /** printnum */
  method PutNum(b: SprintBuf, num: nat, base: nat, width: int, padc: char)
    requires b.Valid() && 2 <= base <= 16
    modifies b`buf, b`cnt, b`out, b.str
    ensures b.Valid() && b.out == old(b.out) + PrintNum(num, base, width, padc)
    decreases num
  {
    var result, mod := DoDiv(num, base);
    ghost var front;
    if num >= base {
      front := PrintNum(result, base, width - 1, padc);
      PutNum(b, result, base, width - 1, padc);
    } else {
      front := Repeat(padc, width - 1);
      PutPadding(b, padc, width - 1);
    }
    JoinThree(old(b.out), front, [Digit(mod)]);
    b.Put(Digit(mod));
  }

  /** The padding loops. */
  method PutPadding(b: SprintBuf, c: char, n: int)
    requires b.Valid()
    modifies b`buf, b`cnt, b`out, b.str
    ensures b.Valid() && b.out == old(b.out) + Repeat(c, n)
  {
    var width := n;
    while width > 0
      invariant b.Valid() && b.out + Repeat(c, width) == old(b.out) + Repeat(c, n)
    {
      b.Put(c);
      width := width - 1;
    }
  }

  /** The loop of %s over the characters, until the string or the precision ends. */
  method PutChars(b: SprintBuf, s: string, precision: int, alt: bool)
    requires b.Valid()
    modifies b`buf, b`cnt, b`out, b.str
    ensures b.Valid() && b.out == old(b.out) + Shown(s[..Taken(s, precision)], alt)
  {
    var p, left := 0, precision;
    ghost var shown := Shown(s[..Taken(s, precision)], alt);
    while p < |s| && (left < 0 || left > 0)
      invariant p <= Taken(s, precision) && b.Valid() && b.out == old(b.out) + shown[..p]
      invariant left == if precision < 0 then precision else precision - p
      decreases |s| - p
    {
      var ch := s[p];
      if alt && (ch < ' ' || ch > '~') {
        b.Put('?');
      } else {
        b.Put(ch);
      }
      assert shown[..p + 1] == shown[..p] + [shown[p]];
      p := p + 1;
      if left > 0 {
        left := left - 1;
      }
    }
    assert shown[..p] == shown;
  }

  /** %s */
  method PutString(b: SprintBuf, s: string, sp: Spec)
    requires b.Valid()
    modifies b`buf, b`cnt, b`out, b.str
    ensures b.Valid() && b.out == old(b.out) + StringText(s, sp)
  {
    var n := StrNLen(s, sp.precision);
    var width := sp.width;
    ghost var left, shown := "", Shown(s[..n], sp.alt);
    if width > 0 && sp.padc != '-' {
      left := Repeat(sp.padc, width - n);
      PutPadding(b, sp.padc, width - n);
      width := 0;
    }
    assert b.out == old(b.out) + left;
    PutChars(b, s, sp.precision, sp.alt);
    PutPadding(b, ' ', width - n);
    JoinThree(old(b.out), left, shown);
    JoinThree(old(b.out), left + shown, Repeat(' ', width - n));
    assert StringText(s, sp) == left + shown + Repeat(' ', width - n);
  }

  /** %e; an error that has no text is put by another call of printfmt. */
  method PutError(b: SprintBuf, error: int)
    requires b.Valid()
    modifies b`buf, b`cnt, b`out, b.str
    ensures b.Valid() && b.out == old(b.out) + ErrorText(error)
  {
    var err := error;
    if err < 0 {
      err := -err;
    }
    var p := ErrorString(err);
    ErrorTextIs(error);
    if err > MAXERROR || p == None {
      PutErrorNumber(b, err);
    } else {
      PlainText(p.value);
      PutChars(b, p.value, -1, false);
    }
  }

  /** printfmt with "error %d" */
  method PutErrorNumber(b: SprintBuf, err: nat)
    requires b.Valid()
    modifies b`buf, b`cnt, b`out, b.str
    ensures b.Valid() && b.out == old(b.out) + ("error " + Decimal(AsInt(err % 0x1_0000_0000), -1, ' '))
  {
    PlainText("error ");
    PutChars(b, "error ", -1, false);
    PutDecimal(b, AsInt(err % 0x1_0000_0000), -1, ' ');
  }

  lemma PlainText(s: string)
    ensures Shown(s[..Taken(s, -1)], false) == s
  {
    assert s[..|s|] == s;
  }

  /** %d, its number taken from the argument already. */
  method PutDecimal(b: SprintBuf, n: int, width: int, padc: char)
    requires b.Valid()
    modifies b`buf, b`cnt, b`out, b.str
    ensures b.Valid() && b.out == old(b.out) + Decimal(n, width, padc)
  {
    var num := n;
    if num < 0 {
      b.Put('-');
      num := -num;
      JoinThree(old(b.out), "-", PrintNum(num, 10, width, padc));
    }
    PutNum(b, num, 10, width, padc);
  }

  // ---------- the format ----------

  /** Everything from the escape at the last '%' on: reswitch, until the conversion character. */
  method ReadEscape(fmt: string, start: nat, args: seq<Arg>, arg: nat) returns (e: Escape)
    requires start <= |fmt|
    ensures e == Parse(fmt, start, FreshSpec(arg), args)
  {
    var pos, sp := start, FreshSpec(arg);
    while true
      invariant pos <= |fmt| && Parse(fmt, pos, sp, args) == Parse(fmt, start, FreshSpec(arg), args)
      decreases |fmt| - pos
    {
      var ch := CharAt(fmt, pos);
      pos := pos + 1;
      if ch == '-' {
        sp := sp.(padc := '-');
      } else if ch == '0' {
        sp := sp.(padc := '0');
      } else if '1' <= ch <= '9' {
        var precision;
        precision, pos := ReadNumber(fmt, pos, ch);
        sp := Process(sp, precision);
      } else if ch == '*' {
        sp := Process(sp.(next := sp.next + 1), AsInt(Slot(args, sp.next).word));
      } else if ch == '.' {
        if sp.width < 0 {
          sp := sp.(width := 0);
        }
      } else if ch == '#' {
        sp := sp.(alt := true);
      } else if ch == 'l' {
        sp := sp.(lflag := sp.lflag + 1);
      } else {
        return Escape(ch, pos, sp);
      }
    }
  }

  /** The loop over the digits of a width or precision, past the first one. */
  method ReadNumber(fmt: string, start: nat, first: char) returns (precision: nat, pos: nat)
    requires start <= |fmt| && '1' <= first <= '9'
    ensures (precision, pos) == Number(fmt, start, first as int - '0' as int)
  {
    precision, pos := first as int - '0' as int, start;
    while '0' <= CharAt(fmt, pos) <= '9'
      invariant start <= pos <= |fmt|
      invariant Number(fmt, pos, precision) == Number(fmt, start, first as int - '0' as int)
      decreases |fmt| - pos
    {
      precision := precision * 10 + (CharAt(fmt, pos) as int - '0' as int);
      pos := pos + 1;
    }
  }

  /** The cases of the switch that put something. */
  method PutConversion(b: SprintBuf, ch: char, sp: Spec, arg: Arg)
    requires b.Valid() && IsConversion(ch)
    modifies b`buf, b`cnt, b`out, b.str
    ensures b.Valid() && b.out == old(b.out) + Converted(ch, sp, arg)
  {
    if ch == 'c' {
      b.Put((arg.word % 256) as char);
    } else if ch == 'e' {
      PutError(b, AsInt(arg.word));
    } else if ch == 's' {
      var p := if arg.text.Some? then arg.text.value else "(null)";
      PutString(b, p, sp);
    } else if ch == 'd' {
      PutDecimal(b, GetInt(arg.word, sp.lflag), sp.width, sp.padc);
    } else if ch == '%' {
      b.Put(ch);
    } else {
      PutUnsigned(b, ch, sp, arg);
    }
  }

  method PutUnsigned(b: SprintBuf, ch: char, sp: Spec, arg: Arg)
    requires b.Valid() && ch in "uopx"
    modifies b`buf, b`cnt, b`out, b.str
    ensures b.Valid() && b.out == old(b.out) + Converted(ch, sp, arg)
  {
    var num, base := GetUInt(arg.word, sp.lflag), 16;
    if ch == 'u' {
      base := 10;
    } else if ch == 'o' {
      base := 8;
    } else if ch == 'p' {
      b.Put('0');
      b.Put('x');
      num := GetUInt(arg.word, 2);
    }
    PutNum(b, num, base, sp.width, sp.padc);
  }

  /** The rewinding of the default case: back to what came after the '%'. */
  method Rewind(fmt: string, start: nat, end: nat) returns (pos: nat)
    requires 0 < start < end <= |fmt| + 1 && start <= |fmt| && fmt[start - 1] == '%'
    requires forall k :: start <= k < end - 1 ==> fmt[k] != '%'
    ensures pos == start
  {
    pos := end - 1;
    while fmt[pos - 1] != '%'
      invariant start <= pos <= end - 1
      decreases pos
    {
      pos := pos - 1;
    }
  }

  /** vprintfmt */
  method VPrintFmt(b: SprintBuf, fmt: string, args: seq<Arg>)
    requires b.Valid()
    modifies b`buf, b`cnt, b`out, b.str
    ensures b.Valid() && b.out == old(b.out) + Format.Format(fmt, 0, args, 0)
  {
    var pos, next := 0, 0;
    while true
      invariant pos <= |fmt| && b.Valid()
      invariant b.out + Format.Format(fmt, pos, args, next) == old(b.out) + Format.Format(fmt, 0, args, 0)
      decreases |fmt| - pos
    {
      var ch := CharAt(fmt, pos);
      if ch == NUL { return; }
      pos := pos + 1;
      if ch != '%' {
        FormatPlain(fmt, pos - 1, args, next);
        JoinThree(b.out, [ch], Format.Format(fmt, pos, args, next));
        b.Put(ch);
      } else {
        pos, next := PutEscape(b, fmt, pos, args, next);
      }
    }
  }

  /** What vprintfmt does at a '%'. */
  method PutEscape(b: SprintBuf, fmt: string, start: nat, args: seq<Arg>, arg: nat) returns (pos: nat, next: nat)
    requires b.Valid() && 0 < start <= |fmt| && fmt[start - 1] == '%'
    modifies b`buf, b`cnt, b`out, b.str
    ensures b.Valid() && start <= pos <= |fmt|
    ensures b.out + Format.Format(fmt, pos, args, next) == old(b.out) + Format.Format(fmt, start - 1, args, arg)
  {
    var e := ReadEscape(fmt, start, args, arg);
    if IsConversion(e.ch) {
      PutConversion(b, e.ch, e.sp, Slot(args, e.sp.next));
      pos, next := e.end, NextArg(e.ch, e.sp);
      JoinThree(old(b.out), Converted(e.ch, e.sp, Slot(args, e.sp.next)), Format.Format(fmt, pos, args, next));
    } else {
      b.Put('%');
      pos := Rewind(fmt, start, e.end);
      next := e.sp.next;
      JoinThree(old(b.out), "%", Format.Format(fmt, pos, args, next));
    }
  }

  /** vsnprintf: the length of the whole output, and as much of it as fits, ended by NUL. */
  method VSnPrintf(str: array?<char>, size: nat, fmt: string, args: seq<Arg>) returns (r: int)
    requires str != null ==> size <= str.Length
    modifies if str == null then {} else {str}
    ensures str == null || size == 0 ==> r == -E_INVAL == -3
    ensures str != null && size == 0 ==> str[..] == old(str[..])
    ensures str != null && size > 0 ==>
      var out := Format.Format(fmt, 0, args, 0);
      var kept := if |out| < size - 1 then |out| else size - 1;
      && r == |out|
      && str[..kept] == out[..kept] && str[kept] == NUL && str[kept + 1..] == old(str[kept + 1..])
  {
    if str == null || size == 0 {
      return -E_INVAL;
    }
    var b := new SprintBuf(str, size);
    VPrintFmt(b, fmt, args);
    assert b.out == Format.Format(fmt, 0, args, 0);
    b.Terminate();
    r := b.cnt;
  }
}
