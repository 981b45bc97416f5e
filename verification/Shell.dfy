/** The tokenizer of the shell (gettoken in lab8/user/sh.c). It cuts the line up
    where it stands: a word is ended by the call that comes after it.
 */
module Shell {
  import opened Wrappers
  import opened Strings

  const WHITESPACE: string := " \t\r\n"
  const SYMBOLS: string := "<|>&;"

  predicate IsSpace(c: char) {
    c in WHITESPACE
  }

  predicate IsSymbol(c: char) {
    c in SYMBOLS
  }

  /** What ends a word outside of quotes. */
  predicate Breaks(c: char) {
    IsSpace(c) || IsSymbol(c)
  }

  // ---------- one call ----------

  /** The first position from s on that holds no whitespace. */
  function SkipTo(line: string, s: nat): (t: nat)
    requires s <= |line|
    ensures s <= t <= |line| && (t < |line| ==> !IsSpace(line[t])) && forall i :: s <= i < t ==> IsSpace(line[i])
    decreases |line| - s
  {
    if s < |line| && IsSpace(line[s]) then SkipTo(line, s + 1) else s
  }

  /** Where the word ends that goes on at s; quoted tells whether a quote is open. */
  function WordEnd(line: string, s: nat, quoted: bool): (e: nat)
    requires s <= |line|
    ensures s <= e <= |line| && (e < |line| ==> line[e] == NUL || Breaks(line[e])) && forall i :: s <= i < e ==>
        line[i] != NUL
    decreases |line| - s
  {
    if s == |line| || line[s] == NUL || (!quoted && Breaks(line[s])) then s
    else WordEnd(line, s + 1, quoted != (line[s] == '"'))
  }

  /** The line with NULs from lo to hi. */
  function Wiped(line: string, lo: nat, hi: nat): (r: string)
    ensures |r| == |line|
  {
    seq(|line|, i requires 0 <= i < |line| => if lo <= i < hi then NUL else line[i])
  }

  function Plain(c: char): char {
    if c == '"' then ' ' else c
  }

  /** The line with spaces for the quotes from lo to hi. */
  function Unquoted(line: string, lo: nat, hi: nat): (r: string)
    ensures |r| == |line|
  {
    seq(|line|, i requires 0 <= i < |line| => if lo <= i < hi then Plain(line[i]) else line[i])
  }

  /** The first NUL from s on is at end. */
  ghost predicate Ends(line: string, s: nat, end: nat) {
    s <= end < |line| && line[end] == NUL && forall i :: s <= i < end ==> line[i] != NUL
  }

  /** A token as a call returns it, and *p2. */
  datatype Found = Found(kind: char, at: nat)

  /** What a call leaves: the line, *p1, and the token, if there was one. */
  datatype Call = Call(line: string, p1: Option<nat>, found: Option<Found>)

  function Rest(line: string, next: nat): Option<nat> {
    if CharAt(line, next) != NUL then Some(next) else None
  }

  /** gettoken at s */
  function GetToken(line: string, s: nat): Call
    requires s <= |line|
  {
    var start := SkipTo(line, s);
    var c := CharAt(line, start);
    if c == NUL then Call(Wiped(line, s, start), Some(s), None)
    else if IsSymbol(c) then Call(Wiped(line, s, start + 1), Rest(line, start + 1), Some(Found(c, start)))
    else
      var e := WordEnd(line, start, false);
      Call(Unquoted(Wiped(line, s, start), start, e), Rest(line, e), Some(Found('w', start)))
  }

  /** gettoken; the token 0 stands for none, and *p2 stays then. */
  method TakeToken(line: array<char>, p1: Option<nat>, p2: nat, ghost end: nat)
    returns (token: char, p1': Option<nat>, p2': nat)
    requires p1.Some? ==> Ends(line[..], p1.value, end)
    modifies line
    ensures p1 == None ==> token == NUL && p1' == p1 && p2' == p2 && line[..] == old(line[..])
    ensures p1.Some? ==>
      var call := GetToken(old(line[..]), p1.value);
      && line[..] == call.line && p1' == call.p1
      && if call.found == None then token == NUL && p2' == p2
         else token == call.found.value.kind && p2' == call.found.value.at
  {
    token, p1', p2' := NUL, p1, p2;
    if p1 == None { return; }
    ghost var was := line[..];
    var s := SkipSpaces(line, p1.value, end);
    if line[s] == NUL { return; }
    p2' := s;
    token := 'w';
    var symbol := StrChr(SYMBOLS, line[s]);
    if symbol != None {
      token := line[s];
      line[s] := NUL;
      s := s + 1;
      assert line[..] == Wiped(was, p1.value, s);
    } else {
      SameEnd(was, line[..], s, false);
      s := PassWord(line, s, end);
    }
    p1' := if line[s] != NUL then Some(s) else None;
  }

  /** Only what comes later matters. */
  lemma {:induction false} SameEnd(a: string, b: string, s: nat, quoted: bool)
    requires |a| == |b| && s <= |a| && forall i :: s <= i < |a| ==> a[i] == b[i]
    ensures WordEnd(a, s, quoted) == WordEnd(b, s, quoted)
    decreases |a| - s
  {
    if s < |a| { SameEnd(a, b, s + 1, quoted != (a[s] == '"')); }
  }

  /** The first loop. */
  method SkipSpaces(line: array<char>, s0: nat, ghost end: nat) returns (s: nat)
    requires Ends(line[..], s0, end)
    modifies line
    ensures s == SkipTo(old(line[..]), s0) <= end && line[..] == Wiped(old(line[..]), s0, s)
  {
    ghost var was := line[..];
    s := s0;
    var space := StrChr(WHITESPACE, line[s]);
    while space != None
      invariant s0 <= s <= end && SkipTo(was, s) == SkipTo(was, s0) && (space != None <==> IsSpace(line[s]))
      invariant forall i :: 0 <= i < line.Length ==> line[i] == if s0 <= i < s then NUL else was[i]
      decreases end - s
    {
      line[s] := NUL;
      s := s + 1;
      space := StrChr(WHITESPACE, line[s]);
    }
    assert line[..] == Wiped(was, s0, s);
  }

  /** The loop over a word. */
  method PassWord(line: array<char>, s0: nat, ghost end: nat) returns (s: nat)
    requires Ends(line[..], s0, end)
    modifies line
    ensures s == WordEnd(old(line[..]), s0, false) <= end && line[..] == Unquoted(old(line[..]), s0, s)
  {
    ghost var was := line[..];
    var flag := false;
    s := s0;
    var stop := StrChr(WHITESPACE + SYMBOLS, line[s]);
    while line[s] != NUL && (flag || stop == None)
      invariant s0 <= s <= end && WordEnd(was, s, flag) == WordEnd(was, s0, false) && (stop != None <==>
          Breaks(line[s]))
      invariant forall i :: 0 <= i < line.Length ==> line[i] == if s0 <= i < s then Plain(was[i]) else was[i]
      decreases end - s
    {
      if line[s] == '"' {
        line[s], flag := ' ', !flag;
      }
      s := s + 1;
      stop := StrChr(WHITESPACE + SYMBOLS, line[s]);
    }
    assert line[..] == Unquoted(was, s0, s);
  }

  // ---------- the tokens of a text ----------

  datatype Token = Word(text: string) | Symbol(c: char)

  /** Length of the whitespace that s starts with. */
  function Spaces(s: string): (n: nat)
    ensures n <= |s|
  {
    if s == "" || !IsSpace(s[0]) then 0 else 1 + Spaces(s[1..])
  }

  /** Length of the word that s starts with; quoted tells whether a quote is open. */
  function Span(s: string, quoted: bool): (n: nat)
    ensures n <= |s|
    ensures s != "" && (quoted || !Breaks(s[0])) ==> n > 0
  {
    if s == "" || (!quoted && Breaks(s[0])) then 0 else 1 + Span(s[1..], quoted != (s[0] == '"'))
  }

  /** A word as it is meant: quotes are spaces. */
  function Meant(s: string): (r: string)
    ensures |r| == |s|
  {
    seq(|s|, i requires 0 <= i < |s| => Plain(s[i]))
  }

  lemma {:induction false} SpacesThen(s: string)
    ensures s[Spaces(s)..] != "" ==> !IsSpace(s[Spaces(s)])
  {
    if s != "" && IsSpace(s[0]) {
      SpacesThen(s[1..]);
      assert s[1..][Spaces(s[1..])..] == s[Spaces(s)..];
    }
  }

  function Tokens(s: string): seq<Token>
    decreases |s|
  {
    SpacesThen(s);
    var t := s[Spaces(s)..];
    if t == "" then []
    else if IsSymbol(t[0]) then [Symbol(t[0])] + Tokens(t[1..])
    else [Word(Meant(t[..Span(t, false)]))] + Tokens(t[Span(t, false)..])
  }

  lemma {:induction false} SkipsSpaces(line: string, s: nat, end: nat)
    requires Ends(line, s, end)
    ensures SkipTo(line, s) == s + Spaces(line[s..end]) <= end
    decreases end - s
  {
    if s < end && IsSpace(line[s]) {
      SkipsSpaces(line, s + 1, end);
      assert line[s..end][1..] == line[s + 1..end];
    }
  }

  lemma {:induction false} SpansWord(line: string, s: nat, end: nat, quoted: bool)
    requires Ends(line, s, end)
    ensures WordEnd(line, s, quoted) == s + Span(line[s..end], quoted) <= end
    decreases end - s
  {
    if s < end && (quoted || !Breaks(line[s])) {
      SpansWord(line, s + 1, end, quoted != (line[s] == '"'));
      assert line[s..end][1..] == line[s + 1..end];
    }
  }

  // ---------- calls until there is no token ----------

  /** The line, and the tokens with their places, after calls until there is no token any more. */
  function Calls(line: string, s: nat, end: nat): (string, seq<Found>)
    requires s <= end <= |line|
    decreases end - s
  {
    var call := GetToken(line, s);
    if call.found == None then (call.line, [])
    else if call.p1 == None || !(s < call.p1.value <= end <= |call.line|) then (call.line, [call.found.value])
    else
      var later := Calls(call.line, call.p1.value, end);
      (later.0, [call.found.value] + later.1)
  }

  /** The C string at at is text. */
  ghost predicate ReadsAs(line: string, at: nat, text: string) {
    at + |text| < |line| && line[at..at + |text|] == text && line[at + |text|] == NUL && NUL !in text
  }

  ghost predicate Matches(line: string, f: Found, t: Token) {
    match t
    case Symbol(c) => f.kind == c
    case Word(text) => f.kind == 'w' && ReadsAs(line, f.at, text)
  }

  ghost predicate AllMatch(line: string, found: seq<Found>, tokens: seq<Token>) {
    |found| == |tokens| && forall k :: 0 <= k < |found| ==> Matches(line, found[k], tokens[k])
  }

  /** Only what lies from s to n may have changed. */
  ghost predicate Edited(line: string, s: nat, n: nat, line': string) {
    s <= n <= |line| == |line'| && line'[..s] == line[..s] && line'[n..] == line[n..]
  }

  /** A call took token t, from start to n, and the text goes on at n. */
  ghost predicate Takes(line: string, s: nat, end: nat, call: Call, t: Token, start: nat, n: nat) {
    && s <= start < n <= end < |line| && Edited(line, s, n, call.line)
    && call.p1 == (if n < end then Some(n) else None)
    && (Breaks(line[s]) ==> call.line[s] == NUL)
    && match t
       case Symbol(c) => call.found == Some(Found(c, start))
       case Word(text) =>
         && call.found == Some(Found('w', start)) && call.line[start..n] == text && NUL !in text
         && (n < end ==> Breaks(line[n]))
  }

  lemma NoToken(line: string, s: nat, end: nat)
    requires Ends(line, s, end) && SkipTo(line, s) == end
    ensures GetToken(line, s) == Call(Wiped(line, s, end), Some(s), None)
    ensures Tokens(line[s..end]) == [] && Edited(line, s, end, Wiped(line, s, end))
    ensures Breaks(line[s]) ==> Wiped(line, s, end)[s] == NUL
  {
    SkipsSpaces(line, s, end);
  }

  lemma RestIs(line: string, s: nat, n: nat, end: nat)
    requires Ends(line, s, end) && s <= n <= end
    ensures Rest(line, n) == if n < end then Some(n) else None
  {
  }

  lemma SymbolTaken(line: string, s: nat, end: nat, start: nat, call: Call)
    requires Ends(line, s, end) && s <= start < end && (start == s || IsSpace(line[s]))
    requires call == Call(Wiped(line, s, start + 1), Rest(line, start + 1), Some(Found(line[start], start)))
    ensures Takes(line, s, end, call, Symbol(line[start]), start, start + 1)
  {
    RestIs(line, s, start + 1, end);
  }

  lemma WordTaken(line: string, s: nat, end: nat, start: nat, n: nat, call: Call)
    requires Ends(line, s, end) && s <= start < n <= end && (start == s ==> !Breaks(line[s]))
    requires n < end ==> Breaks(line[n])
    requires call == Call(Unquoted(Wiped(line, s, start), start, n), Rest(line, n), Some(Found('w', start)))
    ensures Takes(line, s, end, call, Word(Meant(line[start..n])), start, n)
  {
    RestIs(line, s, n, end);
    assert call.line[start..n] == Meant(line[start..n]);
    assert Edited(line, s, n, call.line);
  }

  lemma TokensSymbol(text: string, t: string, c: char, rest: string)
    requires t == text[Spaces(text)..] && t != "" && IsSymbol(t[0]) && c == t[0] && rest == t[1..]
    ensures Tokens(text) == [Symbol(c)] + Tokens(rest)
  {
  }

  lemma TokensWord(text: string, t: string, word: string, rest: string)
    requires t == text[Spaces(text)..] && t != "" && !IsSymbol(t[0])
    requires word == t[..Span(t, false)] && rest == t[Span(t, false)..]
    ensures Tokens(text) == [Word(Meant(word))] + Tokens(rest)
  {
  }

  lemma Slices(line: string, lo: nat, mid: nat, hi: nat)
    requires lo <= mid <= hi <= |line|
    ensures line[lo..hi][..mid - lo] == line[lo..mid] && line[lo..hi][mid - lo..] == line[mid..hi]
  {
  }

  function NextAt(line: string, start: nat): (n: nat)
    requires start < |line|
    ensures n <= |line| && start <= n
  {
    if IsSymbol(line[start]) then start + 1 else WordEnd(line, start, false)
  }

  function TokenAt(line: string, start: nat): Token
    requires start < |line|
  {
    if IsSymbol(line[start]) then Symbol(line[start]) else Word(Meant(line[start..NextAt(line, start)]))
  }

  lemma CallTakes(line: string, s: nat, end: nat, start: nat)
    requires Ends(line, s, end) && start == SkipTo(line, s) < end
    ensures Takes(line, s, end, GetToken(line, s), TokenAt(line, start), start, NextAt(line, start)) == true
  {
    if IsSymbol(line[start]) {
      SymbolTaken(line, s, end, start, GetToken(line, s));
    } else {
      SpansWord(line, start, end, false);
      WordTaken(line, s, end, start, WordEnd(line, start, false), GetToken(line, s));
    }
  }

  /** The token a call takes is the next one of the text. */
  lemma TextTakes(line: string, s: nat, end: nat, start: nat)
    requires Ends(line, s, end) && start == SkipTo(line, s) < end
    ensures NextAt(line, start) <= end
    ensures Tokens(line[s..end]) == [TokenAt(line, start)] + Tokens(line[NextAt(line, start)..end])
  {
    SkipsSpaces(line, s, end);
    Slices(line, s, start, end);
    if IsSymbol(line[start]) {
      Slices(line, start, start + 1, end);
      TokensSymbol(line[s..end], line[start..end], line[start], line[start + 1..end]);
    } else {
      var n := WordEnd(line, start, false);
      SpansWord(line, start, end, false);
      Slices(line, start, n, end);
      TokensWord(line[s..end], line[start..end], line[start..n], line[n..end]);
    }
  }

  ghost predicate Tokenized(line: string, s: nat, end: nat, r: (string, seq<Found>), tokens: seq<Token>) {
    s <= end < |line| && Edited(line, s, end, r.0) && AllMatch(r.0, r.1, tokens) && (Breaks(line[s]) ==> r.0[s] == NUL)
  }

  lemma OneMatches(before: string, after: string, f: Found, t: Token, n: nat)
    requires n < |before| == |after| && before[..n] == after[..n]
    requires match t
      case Symbol(c) => f.kind == c
      case Word(text) => f.kind == 'w' && f.at <= n && before[f.at..n] == text && after[n] == NUL && NUL !in text
    ensures Matches(after, f, t)
  {
    if t.Word? { assert before[..n][f.at..] == before[f.at..n] && after[..n][f.at..] == after[f.at..n]; }
  }

  /** The token stays as it is while later calls go on. */
  lemma TokenKept(line: string, s: nat, end: nat, call: Call, t: Token, start: nat, n: nat, r: (string, seq<Found>),
      later: seq<Found>, tokens: seq<Token>)
    requires Ends(line, s, end) && Takes(line, s, end, call, t, start, n)
    requires Edited(call.line, n, end, r.0) && (t.Word? ==> r.0[n] == NUL)
    requires AllMatch(r.0, later, tokens) && r.1 == [call.found.value] + later
    ensures Tokenized(line, s, end, r, [t] + tokens)
  {
    assert r.0[..s] == r.0[..n][..s] && call.line[..s] == call.line[..n][..s];
    assert r.0[s] == r.0[..n][s] == call.line[..n][s];
    assert call.line[end..] == call.line[n..][end - n..] && line[end..] == line[n..][end - n..];
    OneMatches(call.line, r.0, call.found.value, t, n);
  }

  /** Calling gettoken until it returns 0 gives the tokens of the line; then each word is a C string of its own, and
      what came before s is as it was: no call touches an earlier word. */
  lemma {:induction false} LineIsTokenized(line: string, s: nat, end: nat)
    requires Ends(line, s, end)
    ensures Tokenized(line, s, end, Calls(line, s, end), Tokens(line[s..end]))
    decreases end - s
  {
    SkipsSpaces(line, s, end);
    if SkipTo(line, s) == end {
      NoToken(line, s, end);
    } else {
      var call := GetToken(line, s);
      var start := SkipTo(line, s);
      var t, n := TokenAt(line, start), NextAt(line, start);
      CallTakes(line, s, end, start);
      TextTakes(line, s, end, start);
      if n < end {
        TextGoesOn(line, s, end, call, t, start, n);
        LineIsTokenized(call.line, n, end);
        TokenKept(line, s, end, call, t, start, n, Calls(line, s, end), Calls(call.line, n, end).1,
            Tokens(line[n..end]));
      } else {
        TextIsOver(line, s, end, call, t, start);
        TokenKept(line, s, end, call, t, start, n, Calls(line, s, end), [], []);
      }
    }
  }

  lemma SamePast(line: string, s: nat, n: nat, line': string)
    requires Edited(line, s, n, line')
    ensures forall i :: n <= i < |line| ==> line'[i] == line[i]
  {
    assert forall i :: n <= i < |line| ==> line'[i] == line'[n..][i - n] == line[n..][i - n];
  }

  lemma EndsOn(line: string, s: nat, n: nat, line': string, end: nat)
    requires Ends(line, s, end) && Edited(line, s, n, line') && n <= end
    ensures Ends(line', n, end) && line'[n..end] == line[n..end] && line'[n] == line[n]
  {
    SamePast(line, s, n, line');
  }

  lemma TextGoesOn(line: string, s: nat, end: nat, call: Call, t: Token, start: nat, n: nat)
    requires Ends(line, s, end) && call == GetToken(line, s) && Takes(line, s, end, call, t, start, n) && n < end
    ensures Ends(call.line, n, end) && call.line[n..end] == line[n..end] && call.line[n] == line[n]
    ensures Calls(line, s, end) == (Calls(call.line, n, end).0, [call.found.value] + Calls(call.line, n, end).1)
  {
    EndsOn(line, s, n, call.line, end);
  }

  lemma TextIsOver(line: string, s: nat, end: nat, call: Call, t: Token, start: nat)
    requires Ends(line, s, end) && call == GetToken(line, s) && Takes(line, s, end, call, t, start, end)
    ensures Tokens(line[end..end]) == [] && call.line[end] == NUL
    ensures Calls(line, s, end) == (call.line, [call.found.value])
  {
    assert line[end..end] == "" && call.line[end] == line[end..][0];
  }

  // ---------- the same in the characters of the line ----------

  // What follows names every character that counts, and uses nothing of what is above but the tokens found and the line
  // that is left.

  predicate Blank(c: char) {
    c == ' ' || c == '\t' || c == '\r' || c == '\n'
  }

  predicate Special(c: char) {
    c == '<' || c == '|' || c == '>' || c == '&' || c == ';'
  }

  function Quotes(s: string): nat {
    if s == "" then 0 else Quotes(s[..|s| - 1]) + if s[|s| - 1] == '"' then 1 else 0
  }

  /** The quotes from at on are all closed before i. */
  predicate Closed(was: string, at: nat, i: nat)
    requires at <= i <= |was|
  {
    Quotes(was[at..i]) % 2 == 0
  }

  /** From at to n there is a word: its characters are those of the old line, with spaces for the quotes; outside of
      quotes none of them ends a word, and the one that does comes after it, unless the line is over. */
  ghost predicate WordCut(was: string, now: string, at: nat, n: nat, end: nat) {
    && at < n <= end < |was| && |now| == |was| && now[n] == NUL && !Special(was[at])
    && (forall i :: at <= i < n ==> now[i] == (if was[i] == '"' then ' ' else was[i]) && now[i] != NUL)
    && (forall i {:trigger was[i]} :: at <= i < n && Closed(was, at, i) ==> !Blank(was[i]) && !Special(was[i]))
    && (n < end ==> Closed(was, at, n) && (Blank(was[n]) || Special(was[n])))
  }

  /** The token f, after blanks from start on, which are wiped out, is over at n. */
  ghost predicate TokenCut(was: string, now: string, start: nat, f: Found, n: nat, end: nat) {
    && start <= f.at < n <= end < |was| == |now| && !Blank(was[f.at])
    && (forall i :: start <= i < f.at ==> Blank(was[i]) && now[i] == NUL)
    && if f.kind == 'w' then WordCut(was, now, f.at, n, end)
       else Special(f.kind) && f.kind == was[f.at] && n == f.at + 1 && now[f.at] == NUL
  }

  /** The tokens, ending where ends says, and blanks between them are all there is from start to end. */
  ghost predicate AllCut(was: string, now: string, start: nat, end: nat, found: seq<Found>, ends: seq<nat>)
    decreases |found|
  {
    if found == [] then
      && ends == [] && start <= end <= |was| == |now|
      && (forall i :: start <= i < end ==> Blank(was[i]) && now[i] == NUL)
    else
      && ends != [] && TokenCut(was, now, start, found[0], ends[0], end)
      && AllCut(was, now, ends[0], end, found[1..], ends[1..])
  }

  /** So calls until 0 leave the line. */
  ghost predicate LineCut(line: string, s: nat, end: nat, ends: seq<nat>)
    requires s <= end <= |line|
  {
    AllCut(line, Calls(line, s, end).0, s, end, Calls(line, s, end).1, ends) == true
  }

  lemma CharsMean(c: char)
    ensures IsSpace(c) <==> Blank(c)
    ensures IsSymbol(c) <==> Special(c)
  {
  }

  lemma {:induction false} SpanQuotes(line: string, at: nat, s: nat, quoted: bool)
    requires at <= s <= |line| && (quoted <==> !Closed(line, at, s))
    ensures var e := WordEnd(line, s, quoted);
      && (forall i {:trigger line[i]} :: s <= i < e && Closed(line, at, i) ==> !Breaks(line[i]))
      && (e < |line| && line[e] != NUL ==> Closed(line, at, e) && Breaks(line[e]))
    decreases |line| - s
  {
    if !(s == |line| || line[s] == NUL || (!quoted && Breaks(line[s]))) {
      assert line[at..s + 1][..s - at] == line[at..s] && line[at..s + 1][s - at] == line[s];
      SpanQuotes(line, at, s + 1, quoted != (line[s] == '"'));
    }
  }

  /** Where nothing was changed before start, the rest is cut alike. */
  lemma SameWord(was: string, was': string, now: string, start: nat, at: nat, n: nat, end: nat)
    requires WordCut(was, now, at, n, end) && start <= at && |was'| == |was|
    requires forall i :: start <= i < |was| ==> was'[i] == was[i]
    ensures WordCut(was', now, at, n, end)
  {
    forall i | at <= i <= n ensures Closed(was', at, i) <==> Closed(was, at, i) {
      assert was'[at..i] == was[at..i];
    }
  }

  lemma {:induction false} SameCut(was: string, was': string, now: string, start: nat, end: nat, found: seq<Found>,
      ends: seq<nat>)
    requires AllCut(was, now, start, end, found, ends) && |was'| == |was|
    requires forall i :: start <= i < |was| ==> was'[i] == was[i]
    ensures AllCut(was', now, start, end, found, ends)
    decreases |found|
  {
    if found != [] {
      if found[0].kind == 'w' { SameWord(was, was', now, start, found[0].at, ends[0], end); }
      SameCut(was, was', now, ends[0], end, found[1..], ends[1..]);
    }
  }

  lemma WordIsCut(line: string, now: string, start: nat, n: nat, end: nat)
    requires start < end && Ends(line, start, end) && !Breaks(line[start]) && n == WordEnd(line, start, false)
    requires start < n <= end && |now| == |line| && now[n] == NUL
    requires forall i :: start <= i < n ==> now[i] == Plain(line[i])
    ensures WordCut(line, now, start, n, end)
  {
    assert line[start..start] == "";
    SpanQuotes(line, start, start, false);
    forall i | start <= i <= n ensures (Breaks(line[i]) <==> Blank(line[i]) || Special(line[i])) {
      CharsMean(line[i]);
    }
  }

  /** The token that a call takes, in a line that later calls leave as it is up to where it ends. */
  lemma TokenIsCut(line: string, s: nat, end: nat, now: string)
    requires Ends(line, s, end) && SkipTo(line, s) < end && |now| == |line|
    requires NextAt(line, SkipTo(line, s)) <= end
    requires forall i :: 0 <= i < NextAt(line, SkipTo(line, s)) ==> now[i] == GetToken(line, s).line[i]
    requires GetToken(line, s).found.Some? && GetToken(line, s).found.value.kind == 'w' ==>
      now[NextAt(line, SkipTo(line, s))] == NUL
    ensures GetToken(line, s).found.Some?
    ensures TokenCut(line, now, s, GetToken(line, s).found.value, NextAt(line, SkipTo(line, s)), end)
  {
    var start := SkipTo(line, s);
    forall i | s <= i <= start ensures IsSpace(line[i]) <==> Blank(line[i]) {
      CharsMean(line[i]);
    }
    CharsMean(line[start]);
    if !IsSymbol(line[start]) {
      WordIsCut(line, now, start, WordEnd(line, start, false), end);
    }
  }

  lemma NowIs(call: string, now: string, n: nat, end: nat)
    requires Edited(call, n, end, now)
    ensures |now| == |call| && forall i :: 0 <= i < n ==> now[i] == call[i]
  {
    assert forall i :: 0 <= i < n ==> now[i] == now[..n][i] == call[..n][i];
  }

  lemma LastCut(line: string, s: nat, end: nat, start: nat)
    requires Ends(line, s, end) && SkipTo(line, s) == start && (start < end ==> NextAt(line, start) == end)
    ensures start <= end
    ensures LineCut(line, s, end, if start == end then [] else [end])
  {
    SkipsSpaces(line, s, end);
    if start == end {
      NoToken(line, s, end);
      forall i | s <= i < end ensures Blank(line[i]) && Wiped(line, s, end)[i] == NUL {
        CharsMean(line[i]);
      }
      assert Calls(line, s, end) == (Wiped(line, s, end), []);
    } else {
      CallTakes(line, s, end, start);
      TextIsOver(line, s, end, GetToken(line, s), TokenAt(line, start), start);
      TokenIsCut(line, s, end, GetToken(line, s).line);
    }
  }

  lemma LaterCut(line: string, s: nat, end: nat, start: nat, n: nat, later: seq<nat>)
    requires Ends(line, s, end) && SkipTo(line, s) == start < end && n == NextAt(line, start) < end
    requires var call := GetToken(line, s); Ends(call.line, n, end) && LineCut(call.line, n, end, later)
    ensures LineCut(line, s, end, [n] + later)
  {
    var call, t := GetToken(line, s), TokenAt(line, start);
    CallTakes(line, s, end, start);
    TextGoesOn(line, s, end, call, t, start, n);
    LineIsTokenized(call.line, n, end);
    TokenThenCut(line, s, end, start, n, call, t, Calls(call.line, n, end), later);
  }

  lemma TokenThenCut(line: string, s: nat, end: nat, start: nat, n: nat, call: Call, t: Token,
      r: (string, seq<Found>), later: seq<nat>)
    requires Ends(line, s, end) && SkipTo(line, s) == start < end && n == NextAt(line, start) < end
    requires call == GetToken(line, s) && t == TokenAt(line, start) && Takes(line, s, end, call, t, start, n)
    requires Edited(call.line, n, end, r.0) && (Breaks(line[n]) ==> r.0[n] == NUL)
    requires AllCut(call.line, r.0, n, end, r.1, later)
    ensures AllCut(line, r.0, s, end, [call.found.value] + r.1, [n] + later)
  {
    NowIs(call.line, r.0, n, end);
    SamePast(line, s, n, call.line);
    SameCut(call.line, line, r.0, n, end, r.1, later);
    TokenIsCut(line, s, end, r.0);
    assert ([call.found.value] + r.1)[1..] == r.1 && ([n] + later)[1..] == later;
  }

  /** Calling gettoken until it returns 0 cuts the line up so. */
  lemma {:induction false} LineIsCut(line: string, s: nat, end: nat) returns (ends: seq<nat>)
    requires Ends(line, s, end)
    ensures LineCut(line, s, end, ends)
    decreases end - s
  {
    SkipsSpaces(line, s, end);
    var start := SkipTo(line, s);
    if start < end { TextTakes(line, s, end, start); }
    if start < end && NextAt(line, start) < end {
      var n := NextAt(line, start);
      CallTakes(line, s, end, start);
      EndsOn(line, s, n, GetToken(line, s).line, end);
      var later := LineIsCut(GetToken(line, s).line, n, end);
      LaterCut(line, s, end, start, n, later);
      ends := [n] + later;
    } else {
      LastCut(line, s, end, start);
      ends := if start == end then [] else [end];
    }
  }

  // ---------- the calls as they are made ----------

  /** What is still to come after a call. */
  ghost function Remaining(line: string, p1: Option<nat>, end: nat): (string, seq<Found>)
    requires p1.Some? ==> p1.value <= end <= |line|
  {
    if p1.Some? then Calls(line, p1.value, end) else (line, [])
  }

  lemma CallsOn(line: string, s: nat, end: nat)
    requires Ends(line, s, end) && GetToken(line, s).found.Some?
    ensures var call := GetToken(line, s);
      && call.found.value.kind != NUL
      && (call.p1.Some? ==> s < call.p1.value && Ends(call.line, call.p1.value, end))
      && Calls(line, s, end).0 == Remaining(call.line, call.p1, end).0
      && Calls(line, s, end).1 == [call.found.value] + Remaining(call.line, call.p1, end).1
  {
    SkipsSpaces(line, s, end);
    var start := SkipTo(line, s);
    if start == end {
      NoToken(line, s, end);
    } else {
      var t, n := TokenAt(line, start), NextAt(line, start);
      CallTakes(line, s, end, start);
      TextTakes(line, s, end, start);
      if n < end {
        TextGoesOn(line, s, end, GetToken(line, s), t, start, n);
      } else {
        TextIsOver(line, s, end, GetToken(line, s), t, start);
        assert [GetToken(line, s).found.value] + [] == [GetToken(line, s).found.value];
      }
    }
  }

  /** The calls made so far found these tokens; the rest comes from p1 on. */
  ghost predicate Underway(was: string, s: nat, end: nat, found: seq<Found>, line: string, p1: Option<nat>)
    requires s <= end <= |was|
  {
    && (p1.Some? ==> Ends(line, p1.value, end))
    && Calls(was, s, end).0 == Remaining(line, p1, end).0
    && Calls(was, s, end).1 == found + Remaining(line, p1, end).1
  }

  lemma OneMore(was: string, s: nat, end: nat, found: seq<Found>, line: string, p1: nat)
    requires s <= end <= |was| && Underway(was, s, end, found, line, Some(p1))
    ensures var call := GetToken(line, p1);
      if call.found.Some? then
        && call.found.value.kind != NUL && Underway(was, s, end, found + [call.found.value], call.line, call.p1)
        && (call.p1.Some? ==> p1 < call.p1.value)
      else (call.line, found) == Calls(was, s, end)
  {
    var call := GetToken(line, p1);
    if call.found.Some? {
      CallsOn(line, p1, end);
      var rest := Remaining(call.line, call.p1, end).1;
      assert found + ([call.found.value] + rest) == found + [call.found.value] + rest;
    } else {
      assert Calls(line, p1, end) == (call.line, []);
      assert found + [] == found;
    }
  }

  ghost predicate CutUp(was: string, now: string, start: nat, end: nat, found: seq<Found>) {
    exists ends :: AllCut(was, now, start, end, found, ends)
  }

  /** gettoken until it returns 0, as runcmd calls it, whatever is done with the tokens in between. */
  method TakeAll(line: array<char>, s: nat, ghost end: nat) returns (found: seq<Found>)
    requires Ends(line[..], s, end)
    modifies line
    ensures (line[..], found) == Calls(old(line[..]), s, end)
    ensures Tokenized(old(line[..]), s, end, (line[..], found), Tokens(old(line[..])[s..end])) == true
    ensures CutUp(old(line[..]), line[..], s, end, found)
  {
    ghost var was := line[..];
    LineIsTokenized(was, s, end);
    ghost var ends := LineIsCut(was, s, end);
    assert CutUp(was, Calls(was, s, end).0, s, end, Calls(was, s, end).1);
    var p1, p2, token := Some(s), s, NUL;
    found := [];
    assert found + Calls(was, s, end).1 == Calls(was, s, end).1;
    while true
      invariant Underway(was, s, end, found, line[..], p1)
      decreases if p1.Some? then end - p1.value + 1 else 0
    {
      if p1.Some? { OneMore(was, s, end, found, line[..], p1.value); }
      token, p1, p2 := TakeToken(line, p1, p2, end);
      assert found + [] == found;
      if token == NUL { break; }
      found := found + [Found(token, p2)];
    }
  }
}
