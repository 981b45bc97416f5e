/** The functions of lab8/libs/string.c that the formatter, the shell and the
    number parser are about. A C string is the sequence of its characters, and
    the NUL that ends it is what lies past them.
 */
module Strings {
  import opened Wrappers
  import opened Numerals

  const NUL: char := '\0'

  function CharAt(s: string, i: nat): char {
    if i < |s| then s[i] else NUL
  }

  lemma JoinThree(a: string, b: string, c: string)
    ensures a + b + c == a + (b + c)
  {
  }

  /** strnlen; len is a size_t, so that -1 stands for no limit. */
  method StrNLen(s: string, len: int) returns (cnt: nat)
    ensures cnt == if 0 <= len < |s| then len else |s|
  {
    cnt := 0;
    while (len < 0 || cnt < len) && cnt < |s|
      invariant cnt <= |s| && (0 <= len ==> cnt <= len)
      decreases |s| - cnt
    {
      cnt := cnt + 1;
    }
  }

  /** strchr does not look at the NUL, so that searching for it finds nothing. */
  method StrChr(s: string, c: char) returns (at: Option<nat>)
    ensures at.Some? <==> c in s
    ensures at.Some? ==> at.value < |s| && s[at.value] == c && c !in s[..at.value]
  {
    var i := 0;
    while i < |s|
      invariant i <= |s| && c !in s[..i]
      decreases |s| - i
    {
      if s[i] == c { return Some(i); }
      i := i + 1;
    }
    assert s[..i] == s;
    at := None;
  }

  // ---------- memmove ----------

  /** memmove within one memory: whatever the overlap, the destination ends up as the source was, and nothing else
      changes. */
  method MemMove(m: array<char>, dst: nat, src: nat, n: nat)
    requires dst + n <= m.Length && src + n <= m.Length
    modifies m
    ensures m[dst..dst + n] == old(m[src..src + n])
    ensures m[..dst] == old(m[..dst]) && m[dst + n..] == old(m[dst + n..])
  {
    if src < dst && src + n > dst {
      CopyFromEnd(m, dst, src, n);
    } else {
      CopyFromStart(m, dst, src, n);
    }
  }

  method CopyFromEnd(m: array<char>, dst: nat, src: nat, n: nat)
    requires src < dst && dst + n <= m.Length
    modifies m
    ensures m[dst..dst + n] == old(m[src..src + n])
    ensures m[..dst] == old(m[..dst]) && m[dst + n..] == old(m[dst + n..])
  {
    ghost var was := m[..];
    var s, d, left := src + n, dst + n, n;
    while left > 0
      invariant 0 <= left <= n && s == src + left && d == dst + left
      invariant m[..d] == was[..d] && m[dst + n..] == was[dst + n..]
      invariant m[d..dst + n] == was[s..src + n]
    {
      left := left - 1;
      d, s := d - 1, s - 1;
      assert m[s] == m[..d + 1][s] == was[s];
      ghost var done := m[d + 1..dst + n];
      m[d] := m[s];
      assert m[d..dst + n] == [m[d]] + done && was[s..src + n] == [was[s]] + was[s + 1..src + n];
    }
  }

  method CopyFromStart(m: array<char>, dst: nat, src: nat, n: nat)
    requires (src >= dst || src + n <= dst) && dst + n <= m.Length && src + n <= m.Length
    modifies m
    ensures m[dst..dst + n] == old(m[src..src + n])
    ensures m[..dst] == old(m[..dst]) && m[dst + n..] == old(m[dst + n..])
  {
    ghost var was := m[..];
    var s, d, left := src, dst, n;
    while left > 0
      invariant 0 <= left <= n && s == src + (n - left) && d == dst + (n - left)
      invariant m[..dst] == was[..dst] && m[d..] == was[d..]
      invariant m[dst..d] == was[src..s]
    {
      left := left - 1;
      assert m[s] == was[s] by {
        if s < dst { assert m[..dst][s] == was[..dst][s]; } else { assert m[d..][s - d] == was[d..][s - d]; }
      }
      ghost var done := m[dst..d];
      m[d] := m[s];
      d, s := d + 1, s + 1;
      assert m[dst..d] == done + [m[d - 1]] && was[src..s] == was[src..s - 1] + [was[s - 1]];
      assert m[d..] == was[d - 1..][1..];
    }
  }

  // ---------- strtol ----------

  /** A value as a long keeps it. */
  function Long(x: int): (r: int)
    ensures -0x8000_0000_0000_0000 <= r < 0x8000_0000_0000_0000
    ensures -0x8000_0000_0000_0000 <= x < 0x8000_0000_0000_0000 ==> r == x
  {
    (x + 0x8000_0000_0000_0000) % 0x1_0000_0000_0000_0000 - 0x8000_0000_0000_0000
  }

  predicate IsBlank(c: char) {
    c == ' ' || c == '\t'
  }

  /** The first position from i on that is no blank. */
  function SkipBlanks(s: string, i: nat): (j: nat)
    requires i <= |s|
    ensures i <= j <= |s| && !IsBlank(CharAt(s, j))
    decreases |s| - i
  {
    if IsBlank(CharAt(s, i)) then SkipBlanks(s, i + 1) else i
  }

  /** What a character counts as a digit, or -1. */
  function DigitOf(c: char): int {
    if '0' <= c <= '9' then c as int - '0' as int
    else if 'a' <= c <= 'z' then c as int - 'a' as int + 10
    else if 'A' <= c <= 'Z' then c as int - 'A' as int + 10
    else -1
  }

  predicate IsDigit(c: char, base: nat) {
    0 <= DigitOf(c) < base
  }

  /** The digits from i on, after those that made val; and where they end. */
  function TakeDigits(s: string, i: nat, base: nat, val: int): (r: (int, nat))
    requires i <= |s|
    ensures i <= r.1 <= |s| && !IsDigit(CharAt(s, r.1), base)
    decreases |s| - i
  {
    if IsDigit(CharAt(s, i), base) then TakeDigits(s, i + 1, base,
        Long(val * base + DigitOf(CharAt(s, i)))) else (val, i)
  }

  /** The base that is meant, and where the digits start. */
  function Prefix(s: string, i: nat, base: nat): (r: (nat, nat))
    requires i <= |s|
    ensures i <= r.1 <= |s|
  {
    if (base == 0 || base == 16) && CharAt(s, i) == '0' && CharAt(s, i + 1) == 'x' then (16, i + 2)
    else if base == 0 && CharAt(s, i) == '0' then (8, i + 1)
    else if base == 0 then (10, i)
    else (base, i)
  }

  /** The number at the start of s, and where it ends. */
  function ParseLong(s: string, base: nat): (int, nat) {
    var i := SkipBlanks(s, 0);
    var sign := CharAt(s, i);
    var j := if sign == '+' || sign == '-' then i + 1 else i;
    var (b, k) := Prefix(s, j, base);
    var (val, end) := TakeDigits(s, k, b, 0);
    (if sign == '-' then Long(-val) else val, end)
  }

  // ---------- what is read ----------

  /** The number that starts at j: what base is meant, and where the digits start. */
  ghost predicate Based(s: string, j: nat, base: nat, b: nat, k: nat) {
    if j + 1 < |s| && s[j] == '0' && s[j + 1] == 'x' && (base == 0 || base == 16) then b == 16 && k == j + 2
    else if j < |s| && s[j] == '0' && base == 0 then b == 8 && k == j + 1
    else k == j && b == if base == 0 then 10 else base
  }

  /** The digits ds of base b are in s from k up to end, where a character is that is none. */
  ghost predicate Spelled(s: string, k: nat, end: nat, b: nat, ds: seq<nat>) {
    k <= end <= |s| && Spells(s[k..end], ds, b) && (end < |s| ==> forall d: nat :: d < b ==> !Worth(s[end], d))
  }

  /** Up to i there are blanks and tabs, then a sign or none, a prefix or none, and the digits ds; val is what they
      stand for, in 64 bits. */
  ghost predicate Means(s: string, base: nat, i: nat, b: nat, k: nat, ds: seq<nat>, val: int, end: nat) {
    (&& i <= |s| && (forall n :: 0 <= n < i ==> s[n] == ' ' || s[n] == '\t')
     && (i < |s| ==> s[i] != ' ' && s[i] != '\t')
     && Based(s, if i < |s| && (s[i] == '+' || s[i] == '-') then i + 1 else i, base, b, k) && Spelled(s, k, end, b, ds)
     && Wraps(val, if i < |s| && s[i] == '-' then 0 - Positional(ds, b) else Positional(ds, b),
         0x1_0000_0000_0000_0000)) == true
  }

  ghost predicate Reads(s: string, base: nat, val: int, end: nat) {
    exists i, b, k, ds :: Means(s, base, i, b, k, ds, val, end)
  }

  /** A character is a digit, and worth what it should be. */
  lemma WorthIs(c: char, d: nat)
    ensures Worth(c, d) <==> DigitOf(c) == d
  {
  }

  lemma NoDigit(c: char, base: nat)
    ensures IsDigit(c, base) <==> exists d: nat :: d < base && Worth(c, d)
  {
    if IsDigit(c, base) { WorthIs(c, DigitOf(c)); }
    forall d: nat | d < base && Worth(c, d) ensures IsDigit(c, base) {
      WorthIs(c, d);
    }
  }

  /** Wrapping takes whole turns of 64 bits away, */
  lemma LongTurns(x: int) returns (k: int)
    ensures Long(x) == x + k * 0x1_0000_0000_0000_0000
  {
    k := -((x + 0x8000_0000_0000_0000) / 0x1_0000_0000_0000_0000);
  }

  /** and they make no difference. */
  lemma TurnsVanish(x: int, k: int)
    ensures Long(x + k * 0x1_0000_0000_0000_0000) == Long(x)
  {
  }

  lemma TimesTurns(k: int, b: int)
    ensures (k * 0x1_0000_0000_0000_0000) * b == (k * b) * 0x1_0000_0000_0000_0000
  {
  }

  /** It is the same whether wrapping is done before a step or only after it. */
  lemma LongOnce(v: int, b: int, d: int)
    ensures Long(Long(v) * b + d) == Long(v * b + d)
  {
    var k := LongTurns(v);
    assert Long(v) * b == v * b + (k * 0x1_0000_0000_0000_0000) * b;
    TimesTurns(k, b);
    TurnsVanish(v * b + d, k * b);
  }

  lemma NegatedOnce(v: int)
    ensures Long(-Long(v)) == Long(-v)
  {
    var k := LongTurns(v);
    TurnsVanish(-v, -k);
  }

  lemma LongWraps(x: int, val: int)
    ensures Wraps(val, x, 0x1_0000_0000_0000_0000) <==> val == Long(x)
  {
    var k := LongTurns(x);
  }

  /** The digits that the last loop takes spell what it adds to those it took before. */
  lemma {:induction false} TakenSpells(s: string, i: nat, base: nat, before: seq<nat>, val: int)
      returns (ds: seq<nat>)
    requires i <= |s| && val == Long(Positional(before, base))
    ensures i + |ds| <= |s| && Spelled(s, i, i + |ds|, base, ds)
    ensures TakeDigits(s, i, base, val) == (Long(Positional(before + ds, base)), i + |ds|)
    decreases |s| - i
  {
    NoDigit(CharAt(s, i), base);
    if IsDigit(CharAt(s, i), base) {
      var d: nat := DigitOf(s[i]);
      WorthIs(s[i], d);
      PositionalOn(before, d, base);
      LongOnce(Positional(before, base), base, d);
      var rest := TakenSpells(s, i + 1, base, before + [d], Long(val * base + d));
      ds := [d] + rest;
      assert before + [d] + rest == before + ds;
      OneMoreSpelled(s, i, base, d, rest);
    } else {
      ds := [];
      assert before + [] == before;
    }
  }

  lemma OneMoreSpelled(s: string, i: nat, base: nat, d: nat, rest: seq<nat>)
    requires i < |s| && d < base && Worth(s[i], d) && i + 1 + |rest| <= |s|
    requires Spelled(s, i + 1, i + 1 + |rest|, base, rest)
    ensures Spelled(s, i, i + 1 + |rest|, base, [d] + rest)
  {
    var t := s[i..i + 1 + |rest|];
    assert t == [s[i]] + s[i + 1..i + 1 + |rest|];
  }

  lemma {:induction false} BlanksPassed(s: string, i: nat)
    requires i <= |s|
    ensures forall n :: i <= n < SkipBlanks(s, i) ==> s[n] == ' ' || s[n] == '\t'
    decreases |s| - i
  {
    if IsBlank(CharAt(s, i)) { BlanksPassed(s, i + 1); }
  }

  lemma NoDigits(base: nat)
    ensures Long(Positional([], base)) == 0
  {
  }

  /** So they spell all of it, if there were none before. */
  lemma TakenFirst(s: string, k: nat, b: nat, val: int) returns (ds: seq<nat>)
    requires k <= |s| && val == 0
    ensures k + |ds| <= |s| && Spelled(s, k, k + |ds|, b, ds)
    ensures TakeDigits(s, k, b, val) == (Long(Positional(ds, b)), k + |ds|)
  {
    NoDigits(b);
    ds := TakenSpells(s, k, b, [], val);
    assert [] + ds == ds;
  }

  lemma BothWrap(v: int)
    ensures Wraps(Long(v), v, 0x1_0000_0000_0000_0000) && Wraps(Long(-Long(v)), 0 - v, 0x1_0000_0000_0000_0000)
  {
    NegatedOnce(v);
    LongWraps(v, Long(v));
    LongWraps(-v, Long(-v));
  }

  lemma PrefixBased(s: string, j: nat, base: nat)
    requires j <= |s|
    ensures Based(s, j, base, Prefix(s, j, base).0, Prefix(s, j, base).1)
  {
  }

  lemma ParsedIs(s: string, base: nat, i: nat, j: nat, r: (int, nat))
    requires i == SkipBlanks(s, 0) && j == if CharAt(s, i) == '+' || CharAt(s, i) == '-' then i + 1 else i
    requires r == TakeDigits(s, Prefix(s, j, base).1, Prefix(s, j, base).0, 0)
    ensures ParseLong(s, base) == (if CharAt(s, i) == '-' then Long(-r.0) else r.0, r.1)
  {
  }

  lemma ItMeans(s: string, base: nat, i: nat, j: nat, b: nat, k: nat, ds: seq<nat>, v: int, r: (int, nat))
    requires i <= |s| && (forall n :: 0 <= n < i ==> s[n] == ' ' || s[n] == '\t') && !IsBlank(CharAt(s, i))
    requires j == if CharAt(s, i) == '+' || CharAt(s, i) == '-' then i + 1 else i
    requires Based(s, j, base, b, k) && Spelled(s, k, r.1, b, ds) && v == Positional(ds, b)
    requires r.0 == if CharAt(s, i) == '-' then Long(-Long(v)) else Long(v)
    ensures Means(s, base, i, b, k, ds, r.0, r.1)
  {
    BothWrap(v);
  }

  /** What is parsed is what the text means. */
  lemma ParsedMeans(s: string, base: nat) returns (i: nat, b: nat, k: nat, ds: seq<nat>)
    ensures Means(s, base, i, b, k, ds, ParseLong(s, base).0, ParseLong(s, base).1)
  {
    i := SkipBlanks(s, 0);
    BlanksPassed(s, 0);
    var j := if CharAt(s, i) == '+' || CharAt(s, i) == '-' then i + 1 else i;
    b, k := Prefix(s, j, base).0, Prefix(s, j, base).1;
    PrefixBased(s, j, base);
    ds := TakenFirst(s, k, b, 0);
    var v: int := Positional(ds, b);
    ParsedIs(s, base, i, j, (Long(v), k + |ds|));
    ItMeans(s, base, i, j, b, k, ds, v, ParseLong(s, base));
  }

  // The same the other way round: a text has one meaning.

  lemma SameWorth(c: char, d: nat, e: nat)
    requires Worth(c, d) && Worth(c, e)
    ensures d == e
  {
    WorthIs(c, d);
    WorthIs(c, e);
  }

  lemma DigitsInside(s: string, k: nat, b: nat, end: nat, ds: seq<nat>)
    requires Spelled(s, k, end, b, ds)
    ensures (forall n :: k <= n < end ==> IsDigit(s[n], b)) && (end < |s| ==> !IsDigit(s[end], b))
  {
    forall n | k <= n < end ensures IsDigit(s[n], b) {
      assert s[k..end][n - k] == s[n];
      WorthIs(s[n], ds[n - k]);
    }
    if end < |s| { NoDigit(s[end], b); }
  }

  lemma SameDigits(s: string, k: nat, b: nat, end: nat, ds: seq<nat>, end': nat, ds': seq<nat>)
    requires Spelled(s, k, end, b, ds) && Spelled(s, k, end', b, ds')
    ensures end == end' && ds == ds'
  {
    DigitsInside(s, k, b, end, ds);
    DigitsInside(s, k, b, end', ds');
    forall n | 0 <= n < |ds| ensures ds[n] == ds'[n] {
      SameWorth(s[k..end][n], ds[n], ds'[n]);
    }
  }

  lemma OneMeaning(s: string, base: nat, i: nat, b: nat, k: nat, ds: seq<nat>, val: int, end: nat,
      i': nat, b': nat, k': nat, ds': seq<nat>, val': int, end': nat)
    requires Means(s, base, i, b, k, ds, val, end) && Means(s, base, i', b', k', ds', val', end')
    ensures val == val' && end == end'
  {
    assert i == i';
    assert b == b' && k == k';
    SameDigits(s, k, b, end, ds, end', ds');
    var x := if i < |s| && s[i] == '-' then 0 - Positional(ds, b) else Positional(ds, b);
    LongWraps(x, val);
    LongWraps(x, val');
  }

  /** A text reads as one number only, the one that is parsed. */
  lemma ReadsIs(s: string, base: nat, val: int, end: nat)
    ensures Reads(s, base, val, end) <==> (val, end) == ParseLong(s, base)
  {
    var i, b, k, ds := ParsedMeans(s, base);
    if Reads(s, base, val, end) {
      var i', b', k', ds' :| Means(s, base, i', b', k', ds', val, end);
      OneMeaning(s, base, i, b, k, ds, ParseLong(s, base).0, ParseLong(s, base).1, i', b', k', ds', val, end);
    }
  }

  /** strtol; the position is what *endptr is set to. Whatever the text, the digits from where they start up to the
      first character that is none of the base are read in positional notation. */
  method StrToL(s: string, base: nat) returns (val: int, end: nat)
    ensures (val, end) == ParseLong(s, base)
    ensures Reads(s, base, val, end)
  {
    var neg, b := false, base;
    end := 0;
    while IsBlank(CharAt(s, end))
      invariant end <= |s| && SkipBlanks(s, end) == SkipBlanks(s, 0)
      decreases |s| - end
    {
      end := end + 1;
    }
    if CharAt(s, end) == '+' {
      end := end + 1;
    } else if CharAt(s, end) == '-' {
      end, neg := end + 1, true;
    }
    b, end := PassPrefix(s, end, b);
    val, end := ReadDigits(s, end, b);
    if neg {
      val := Long(-val);
    }
    ReadsIs(s, base, val, end);
  }

  /** The base prefix. */
  method PassPrefix(s: string, start: nat, base: nat) returns (b: nat, end: nat)
    requires start <= |s|
    ensures (b, end) == Prefix(s, start, base)
  {
    b, end := base, start;
    if (b == 0 || b == 16) && CharAt(s, end) == '0' && CharAt(s, end + 1) == 'x' {
      end, b := end + 2, 16;
    } else if b == 0 && CharAt(s, end) == '0' {
      end, b := end + 1, 8;
    } else if b == 0 {
      b := 10;
    }
  }

  /** The last loop of strtol. */
  method ReadDigits(s: string, start: nat, base: nat) returns (val: int, end: nat)
    requires start <= |s|
    ensures (val, end) == TakeDigits(s, start, base, 0)
  {
    val, end := 0, start;
    while IsDigit(CharAt(s, end), base)
      invariant start <= end <= |s| && TakeDigits(s, end, base, val) == TakeDigits(s, start, base, 0)
      decreases |s| - end
    {
      val, end := Long(val * base + DigitOf(CharAt(s, end))), end + 1;
    }
  }
}
