/** Device trees, the structure blocks that stand for them, and what the
    scanner finds in those.
 */
module DeviceTreeBlob {
  import opened Octets
  import opened DeviceTree
  import opened Wrappers

  // ---------- tokens ----------

  /** The tokens of section 5.4.1 of the Devicetree Specification; the name of a property is an offset into the
      strings block. */
  datatype Token = BeginNode(name: Bytes) | EndNode | Prop(nameoff: nat, value: Bytes) | Nop | End

  datatype Tokens = Stop | Then(token: Token, rest: Tokens)

  /** A multiple of four. (Recursion keeps the remainders out of the proofs.) */
  predicate Whole(n: nat) {
    if n < 4 then n == 0 else Whole(n - 4)
  }

  /** What n is short of a multiple of four. */
  function Missing(n: nat): (k: nat)
    ensures k < 4
  {
    if n == 0 then 0 else if n < 4 then 4 - n else Missing(n - 4)
  }

  lemma {:induction false} WholeIs(n: nat)
    ensures Whole(n) <==> n % 4 == 0
    ensures Missing(n) == (4 - n % 4) % 4
  {
    if n >= 4 { WholeIs(n - 4); }
  }

  lemma Wholes(a: nat, b: nat)
    requires Whole(a) && Whole(b)
    ensures Whole(a + b)
  {
    WholeIs(a);
    WholeIs(b);
    WholeIs(a + b);
  }

  function Padded(b: Bytes): Bytes {
    b + Zeros(Missing(|b|))
  }

  function TokenBytes(t: Token): (b: Bytes)
    ensures |b| == TokenSize(t)
  {
    match t
    case BeginNode(name) => Cell(BEGIN_NODE) + Padded(name + [0])
    case EndNode => Cell(END_NODE)
    case Prop(nameoff, value) => Cell(PROP) + Cell(|value|) + Cell(nameoff) + Padded(value)
    case Nop => Cell(NOP)
    case End => Cell(END)
  }

  function TokenSize(t: Token): nat {
    match t
    case BeginNode(name) => 4 + |name| + 1 + Missing(|name| + 1)
    case Prop(_, value) => 12 + |value| + Missing(|value|)
    case _ => 4
  }

  function TokensBytes(ts: Tokens): Bytes {
    match ts
    case Stop => []
    case Then(t, rest) => TokenBytes(t) + TokensBytes(rest)
  }

  lemma {:induction false} FilledIsWhole(n: nat)
    ensures Whole(n + Missing(n))
  {
    if n >= 4 { FilledIsWhole(n - 4); }
  }

  lemma SizeIsWhole(t: Token)
    ensures Whole(TokenSize(t))
  {
    match t
    case BeginNode(name) =>
      FilledIsWhole(|name| + 1);
      Wholes(4, |name| + 1 + Missing(|name| + 1));
    case Prop(_, value) =>
      FilledIsWhole(|value|);
      Wholes(12, |value| + Missing(|value|));
    case _ =>
  }

  // ---------- what a blob must hold ----------

  /** The C string at offset at of the blob, with its end inside. */
  ghost predicate HasString(m: Bytes, at: nat) {
    at < |m| && |CString(m[at..])| < |m| - at
  }

  /** Names are C strings, lengths and offsets have 32 bits, and property names are in the strings block. */
  ghost predicate TokenFits(m: Bytes, strings: nat, t: Token) {
    match t
    case BeginNode(name) => NoNul(name)
    case Prop(nameoff, value) => |value| < U32 && nameoff < U32 && HasString(m, strings + nameoff)
    case _ => true
  }

  ghost predicate TokensFit(m: Bytes, strings: nat, ts: Tokens) {
    ts.Then? ==> TokenFits(m, strings, ts.token) && TokensFit(m, strings, ts.rest)
  }

  /** The bytes b lie in the structure block from at on. */
  ghost predicate Laid(m: Bytes, at: nat, b: Bytes, limit: nat) {
    at + |b| <= limit <= |m| && m[at..at + |b|] == b
  }

  lemma LaidParts(m: Bytes, at: nat, a: Bytes, b: Bytes, limit: nat)
    requires Laid(m, at, a + b, limit)
    ensures Laid(m, at, a, limit) && Laid(m, at + |a|, b, limit)
  {
    var c := m[at..at + |a + b|];
    assert m[at..at + |a|] == c[..|a|] && m[at + |a|..at + |a| + |b|] == c[|a|..];
  }

  lemma TokenLaid(m: Bytes, at: nat, x: nat, limit: nat)
    requires Laid(m, at, Cell(x), limit) && x < U32
    ensures TokenAt(m, at) == x
  {
    CellRoundTrip(x);
  }

  lemma RoundedDown(p: nat, r: nat, len: nat, k: nat)
    requires len + k == 4 * r && k < 4
    ensures (4 * p + len + 3) / 4 == p + r
  {
  }

  /** A quarter of n. */
  lemma {:induction false} Quarter(n: nat) returns (q: nat)
    requires Whole(n)
    ensures n == 4 * q
  {
    if n < 4 {
      q := 0;
    } else {
      q := Quarter(n - 4);
      q := q + 1;
    }
  }

  lemma Aligned(base: nat, x: nat, len: nat)
    requires base % 4 == 0 && Whole(x)
    ensures Align(base, x + len + 3) == x + len + Missing(len)
  {
    FilledIsWhole(len);
    var q := Quarter(x);
    var r := Quarter(len + Missing(len));
    RoundedDown(base / 4 + q, r, len, Missing(len));
  }

  // ---------- one token ----------

  predicate MemoryName(name: Bytes) {
    |name| >= 6 && name[..6] == MEMORY
  }

  lemma {:induction false} StrLenIs(m: Bytes, at: nat, name: Bytes, limit: nat)
    requires Laid(m, at, name + [0], limit) && NoNul(name)
    ensures StrLen(m, at, limit) == |name|
    decreases |name|
  {
    var c := m[at..at + |name| + 1];
    assert c == name + [0];
    assert m[at] == c[0];
    if name != [] {
      assert name + [0] == [name[0]] + (name[1..] + [0]);
      LaidParts(m, at, [name[0]], name[1..] + [0], limit);
      StrLenIs(m, at + 1, name[1..], limit);
    }
  }

  lemma NameIs(m: Bytes, at: nat, name: Bytes, limit: nat)
    requires Laid(m, at, name + [0], limit)
    ensures IsMemory(m, at, |name|) <==> MemoryName(name)
  {
    var c := m[at..at + |name| + 1];
    assert |name| >= 6 ==> m[at..at + 6] == c[..6] == name[..6];
  }

  lemma BeginLaid(m: Bytes, at: nat, name: Bytes, limit: nat)
    requires NoNul(name) && Laid(m, at, TokenBytes(BeginNode(name)), limit)
    ensures at + 4 + |name| < limit <= |m| && TokenAt(m, at) == BEGIN_NODE
    ensures StrLen(m, at + 4, limit) == |name| && (IsMemory(m, at + 4, |name|) <==> MemoryName(name))
  {
    LaidParts(m, at, Cell(BEGIN_NODE), Padded(name + [0]), limit);
    TokenLaid(m, at, BEGIN_NODE, limit);
    LaidParts(m, at + 4, name + [0], Zeros(Missing(|name + [0]|)), limit);
    StrLenIs(m, at + 4, name, limit);
    NameIs(m, at + 4, name, limit);
  }

  lemma StepBegin(m: Bytes, base: nat, strings: nat, limit: nat, at: nat, covered: bool, n: nat, memory: bool)
    requires base % 4 == 0 && Whole(at) && at + 4 + n < limit <= |m| && TokenAt(m, at) == BEGIN_NODE
    requires StrLen(m, at + 4, limit) == n && IsMemory(m, at + 4, n) == memory
    ensures Step(m, base, strings, limit, at, covered) == At(at + (4 + n + 1 + Missing(n + 1)), covered || memory)
  {
    Wholes(at, 4);
    Aligned(base, at + 4, n + 1);
  }

  /** The first two 64-bit numbers of a reg property that has them. */
  function RegOf(m: Bytes, strings: nat, t: Token): Option<(nat, nat)> {
    if t.Prop? && strings + t.nameoff < |m| && CString(m[strings + t.nameoff..]) == REG && |t.value| >= 16
    then Some((BigEndian(t.value[..8]), BigEndian(t.value[8..16])))
    else None
  }

  lemma StringReg(t: Bytes)
    requires |CString(t)| < |t|
    ensures CString(t) == REG <==> |t| > 3 && t[0] == REG[0] && t[1] == REG[1] && t[2] == REG[2] && t[3] == 0
    ensures exists i :: 0 <= i < |t| && t[i] == 0
  {
    var s := CString(t);
    assert t[|s|] == 0;
    assert s == REG ==> s[0] == t[0] && s[1] == t[1] && s[2] == t[2];
    if |t| > 3 && t[0] == REG[0] && t[1] == REG[1] && t[2] == REG[2] && t[3] == 0 {
      assert t[..3] == REG;
      CStringIs(t, REG);
    }
  }

  lemma RegAnswer(m: Bytes, at: nat)
    requires HasString(m, at)
    ensures IsReg(m, at) != Wild && (IsReg(m, at) == Yes <==> CString(m[at..]) == REG)
  {
    var t := m[at..];
    StringReg(t);
    var i :| 0 <= i < |t| && t[i] == 0;
    assert m[at + i] == 0;
    assert |t| > 3 ==> t[0] == m[at] && t[1] == m[at + 1] && t[2] == m[at + 2] && t[3] == m[at + 3];
  }

  lemma PropLaid(m: Bytes, at: nat, nameoff: nat, value: Bytes, limit: nat)
    requires Laid(m, at, TokenBytes(Prop(nameoff, value)), limit) && |value| < U32 && nameoff < U32
    ensures TokenAt(m, at) == PROP && TokenAt(m, at + 4) == |value| && TokenAt(m, at + 8) == nameoff
    ensures Laid(m, at + 12, value, limit)
  {
    LaidParts(m, at, Cell(PROP) + Cell(|value|) + Cell(nameoff), Padded(value), limit);
    LaidParts(m, at, Cell(PROP) + Cell(|value|), Cell(nameoff), limit);
    LaidParts(m, at, Cell(PROP), Cell(|value|), limit);
    LaidParts(m, at + 12, value, Zeros(Missing(|value|)), limit);
    TokenLaid(m, at, PROP, limit);
    TokenLaid(m, at + 4, |value|, limit);
    TokenLaid(m, at + 8, nameoff, limit);
  }

  lemma CellsLaid(m: Bytes, at: nat, value: Bytes, limit: nat)
    requires Laid(m, at, value, limit) && |value| >= 16
    ensures m[at..at + 8] == value[..8] && m[at + 8..at + 16] == value[8..16]
  {
    var c := m[at..at + |value|];
    assert forall i :: 0 <= i < 16 ==> m[at + i] == c[i] == value[i];
    forall i | 0 <= i < 8 ensures m[at + 8..at + 16][i] == value[8..16][i] {
      assert m[at + (8 + i)] == c[8 + i];
    }
  }

  /** The property at at, with len bytes of value, as the step sees it; reg is what is found there. */
  ghost predicate RegSeen(m: Bytes, strings: nat, limit: nat, at: nat, len: nat, nameoff: nat,
      reg: Option<(nat, nat)>) {
    (&& at + 12 + len <= limit <= |m|
     && TokenAt(m, at) == PROP && TokenAt(m, at + 4) == len && TokenAt(m, at + 8) == nameoff
     && IsReg(m, strings + nameoff) != Wild
     && reg == if IsReg(m, strings + nameoff) == Yes && len >= 16
               then Some((BigEndian(m[at + 12..at + 20]), BigEndian(m[at + 20..at + 28]))) else None) == true
  }

  lemma RegLaid(m: Bytes, strings: nat, limit: nat, at: nat, nameoff: nat, value: Bytes)
    requires TokenFits(m, strings, Prop(nameoff, value)) && Laid(m, at, TokenBytes(Prop(nameoff, value)), limit)
    ensures RegSeen(m, strings, limit, at, |value|, nameoff, RegOf(m, strings, Prop(nameoff, value)))
  {
    PropLaid(m, at, nameoff, value, limit);
    RegAnswer(m, strings + nameoff);
    if |value| >= 16 { RegCells(m, at + 12, value, limit); }
  }

  lemma RegCells(m: Bytes, at: nat, value: Bytes, limit: nat)
    requires Laid(m, at, value, limit) && |value| >= 16
    ensures BigEndian(m[at..at + 8]) == BigEndian(value[..8])
    ensures BigEndian(m[at + 8..at + 16]) == BigEndian(value[8..16])
  {
    CellsLaid(m, at, value, limit);
  }

  lemma StepReg(m: Bytes, base: nat, strings: nat, limit: nat, at: nat, covered: bool, len: nat, nameoff: nat,
      reg: Option<(nat, nat)>)
    requires base % 4 == 0 && Whole(at) && RegSeen(m, strings, limit, at, len, nameoff, reg)
    ensures Step(m, base, strings, limit, at, covered) ==
      if covered && reg.Some? then Halt(Found(reg.value.0, reg.value.1)) else At(at + (12 + len + Missing(len)),
          covered)
  {
    Wholes(at, 12);
    Aligned(base, at + 12, len);
  }

  /** What the scan does at a token; reg is what the token has to say if it is a reg property. */
  function AtToken(t: Token, reg: Option<(nat, nat)>, at: nat, covered: bool): State {
    match t
    case BeginNode(name) => At(at + TokenSize(t), covered || MemoryName(name))
    case EndNode => At(at + 4, false)
    case Prop(_, _) => if covered && reg.Some? then Halt(Found(reg.value.0, reg.value.1)) else At(at + TokenSize(t),
        covered)
    case Nop => At(at + 4, covered)
    case End => Halt(NotFound)
  }

  lemma StepIs(m: Bytes, base: nat, strings: nat, limit: nat, at: nat, covered: bool, t: Token)
    requires base % 4 == 0 && Whole(at) && TokenFits(m, strings, t) && Laid(m, at, TokenBytes(t), limit)
    ensures Step(m, base, strings, limit, at, covered) == AtToken(t, RegOf(m, strings, t), at, covered)
  {
    match t
    case BeginNode(name) =>
      BeginLaid(m, at, name, limit);
      StepBegin(m, base, strings, limit, at, covered, |name|, MemoryName(name));
    case Prop(nameoff, value) =>
      RegLaid(m, strings, limit, at, nameoff, value);
      StepReg(m, base, strings, limit, at, covered, |value|, nameoff, RegOf(m, strings, t));
    case EndNode => TokenLaid(m, at, END_NODE, limit);
    case Nop => TokenLaid(m, at, NOP, limit);
    case End => TokenLaid(m, at, END, limit);
  }

  // ---------- a sequence of tokens ----------

  /** How a property answers the search. */
  type Registers = Token -> Option<(nat, nat)>

  function RegIn(m: Bytes, strings: nat): Registers {
    t => RegOf(m, strings, t)
  }

  /** The scan, on tokens. */
  function Read(reg: Registers, ts: Tokens, covered: bool): Result {
    match ts
    case Stop => Fault
    case Then(BeginNode(name), rest) => Read(reg, rest, covered || MemoryName(name))
    case Then(EndNode, rest) => Read(reg, rest, false)
    case Then(Prop(nameoff, value), rest) =>
      var r := reg(Prop(nameoff, value));
      if covered && r.Some? then Found(r.value.0, r.value.1) else Read(reg, rest, covered)
    case Then(Nop, rest) => Read(reg, rest, covered)
    case Then(End, _) => NotFound
  }

  lemma ReadStep(reg: Registers, t: Token, rest: Tokens, at: nat, covered: bool)
    ensures var s := AtToken(t, reg(t), at, covered);
      Read(reg, Then(t, rest), covered) == if s.Halt? then s.r else Read(reg, rest, s.inMemory)
  {
  }

  lemma NextAt(t: Token, reg: Option<(nat, nat)>, at: nat, covered: bool)
    ensures var s := AtToken(t, reg, at, covered); s.At? ==> s.at == at + TokenSize(t)
  {
  }

  lemma ScanStep(m: Bytes, base: nat, strings: nat, limit: nat, at: nat, covered: bool, s: State)
    requires limit <= |m| && Step(m, base, strings, limit, at, covered) == s
    ensures Scan(m, base, strings, limit, at, covered) ==
        if s.Halt? then s.r else Scan(m, base, strings, limit, s.at, s.inMemory)
  {
  }

  /** One token of a laid out sequence: the scan and the reader do the same. */
  lemma TokenScanned(m: Bytes, base: nat, strings: nat, limit: nat, at: nat, covered: bool, t: Token,
      rest: Tokens) returns (s: State)
    requires base % 4 == 0 && Whole(at) && TokenFits(m, strings, t)
        && Laid(m, at, TokenBytes(t) + TokensBytes(rest), limit)
    ensures s == AtToken(t, RegOf(m, strings, t), at, covered)
    ensures Step(m, base, strings, limit, at, covered) == s
    ensures s.At? ==> s.at == at + TokenSize(t)
    ensures Whole(at + TokenSize(t)) && Laid(m, at + TokenSize(t), TokensBytes(rest), limit)
  {
    s := AtToken(t, RegOf(m, strings, t), at, covered);
    NextAt(t, RegOf(m, strings, t), at, covered);
    LaidNext(m, at, t, TokensBytes(rest), limit);
    StepIs(m, base, strings, limit, at, covered, t);
    NextWhole(at, t);
  }

  lemma LaidNext(m: Bytes, at: nat, t: Token, rest: Bytes, limit: nat)
    requires Laid(m, at, TokenBytes(t) + rest, limit)
    ensures Laid(m, at, TokenBytes(t), limit) && Laid(m, at + TokenSize(t), rest, limit)
  {
    LaidParts(m, at, TokenBytes(t), rest, limit);
  }

  lemma NextWhole(at: nat, t: Token)
    requires Whole(at)
    ensures Whole(at + TokenSize(t))
  {
    SizeIsWhole(t);
    Wholes(at, TokenSize(t));
  }

  lemma {:induction false} ScanReads(m: Bytes, base: nat, strings: nat, limit: nat, at: nat, covered: bool, ts: Tokens)
    requires base % 4 == 0 && Whole(at) && TokensFit(m, strings, ts) && Laid(m, at, TokensBytes(ts), limit)
    requires Read(RegIn(m, strings), ts, covered) != Fault
    ensures Scan(m, base, strings, limit, at, covered) == Read(RegIn(m, strings), ts, covered)
    decreases ts
  {
    match ts
    case Stop =>
    case Then(t, rest) =>
      var s := TokenScanned(m, base, strings, limit, at, covered, t, rest);
      ReadStep(RegIn(m, strings), t, rest, at, covered);
      ScanStep(m, base, strings, limit, at, covered, s);
      if s.At? { ScanReads(m, base, strings, limit, s.at, s.inMemory, rest); }
  }

  // ---------- trees ----------

  /** A node: properties come before subnodes; no-ops may be anywhere. */
  datatype Tree = Node(name: Bytes, props: Props, kids: Kids)

  datatype Props = NoProps | Blank(rest: Props) | Property(nameoff: nat, value: Bytes, rest: Props)

  datatype Kids = NoKids | Gap(rest: Kids) | Kid(node: Tree, rest: Kids)

  /** The tokens of a node, before rest. */
  function NodeTokens(t: Tree, rest: Tokens): Tokens
    decreases t, 1
  {
    Then(BeginNode(t.name), PropTokens(t.props, KidTokens(t.kids, Then(EndNode, rest))))
  }

  function PropTokens(ps: Props, rest: Tokens): Tokens {
    match ps
    case NoProps => rest
    case Blank(ps') => Then(Nop, PropTokens(ps', rest))
    case Property(nameoff, value, ps') => Then(Prop(nameoff, value), PropTokens(ps', rest))
  }

  function KidTokens(ks: Kids, rest: Tokens): Tokens
    decreases ks, 0
  {
    match ks
    case NoKids => rest
    case Gap(ks') => Then(Nop, KidTokens(ks', rest))
    case Kid(node, ks') => NodeTokens(node, KidTokens(ks', rest))
  }

  /** A structure block: the root, among no-ops, and the end. */
  function BlockTokens(around: Kids): Tokens {
    KidTokens(around, Then(End, Stop))
  }

  function Reg(reg: Registers, ps: Props): Option<(nat, nat)> {
    match ps
    case NoProps => None
    case Blank(rest) => Reg(reg, rest)
    case Property(nameoff, value, rest) =>
      if reg(Prop(nameoff, value)).Some? then reg(Prop(nameoff, value)) else Reg(reg, rest)
  }

  /** What is found in a tree; covered: a node named "memory..." was opened and no node closed since. */
  function Search(reg: Registers, t: Tree, covered: bool): Option<(nat, nat)>
    decreases t, 1
  {
    var on := covered || MemoryName(t.name);
    if on && Reg(reg, t.props).Some? then Reg(reg, t.props) else SearchKids(reg, t.kids, on)
  }

  function SearchKids(reg: Registers, ks: Kids, covered: bool): Option<(nat, nat)>
    decreases ks, 0
  {
    match ks
    case NoKids => None
    case Gap(rest) => SearchKids(reg, rest, covered)
    case Kid(node, rest) =>
      var r := Search(reg, node, covered);
      if r.Some? then r else SearchKids(reg, rest, false)
  }

  /** Is it still covered after these? */
  function After(ks: Kids, covered: bool): bool {
    match ks
    case NoKids => covered
    case Gap(rest) => After(rest, covered)
    case Kid(_, _) => false
  }

  function Answered(r: Option<(nat, nat)>, otherwise: Result): Result {
    match r
    case Some(v) => Found(v.0, v.1)
    case None => otherwise
  }

  lemma {:induction false} ReadProps(reg: Registers, ps: Props, rest: Tokens, covered: bool)
    ensures Read(reg, PropTokens(ps, rest), covered) ==
        Answered(if covered then Reg(reg, ps) else None, Read(reg, rest, covered))
  {
    match ps
    case NoProps =>
    case Blank(ps') => ReadProps(reg, ps', rest, covered);
    case Property(_, _, ps') => ReadProps(reg, ps', rest, covered);
  }

  lemma {:induction false} ReadNode(reg: Registers, t: Tree, rest: Tokens, covered: bool)
    ensures Read(reg, NodeTokens(t, rest), covered) == Answered(Search(reg, t, covered), Read(reg, rest, false))
    decreases t, 1
  {
    var on, inner := covered || MemoryName(t.name), KidTokens(t.kids, Then(EndNode, rest));
    ReadProps(reg, t.props, inner, on);
    ReadKids(reg, t.kids, Then(EndNode, rest), on);
  }

  lemma {:induction false} ReadKids(reg: Registers, ks: Kids, rest: Tokens, covered: bool)
    ensures Read(reg, KidTokens(ks, rest), covered) ==
        Answered(SearchKids(reg, ks, covered), Read(reg, rest, After(ks, covered)))
    decreases ks, 0
  {
    match ks
    case NoKids =>
    case Gap(ks') => ReadKids(reg, ks', rest, covered);
    case Kid(node, ks') =>
      ReadNode(reg, node, KidTokens(ks', rest), covered);
      ReadKids(reg, ks', rest, false);
      AfterNone(ks');
  }

  lemma {:induction false} AfterNone(ks: Kids)
    ensures !After(ks, false)
  {
    if ks.Gap? { AfterNone(ks.rest); }
  }

  /** On the structure block of any tree the scan finds what the search of the tree finds, and it stays inside: cut off
      anywhere past the block, the blob gives the same. */
  lemma ScanFinds(m: Bytes, base: nat, strings: nat, limit: nat, at: nat, around: Kids)
    requires base % 4 == 0 && Whole(at) && TokensFit(m, strings, BlockTokens(around))
    requires Laid(m, at, TokensBytes(BlockTokens(around)), limit)
    ensures Scan(m, base, strings, limit, at, false) == Answered(SearchKids(RegIn(m, strings), around, false), NotFound)
    ensures Scan(m, base, strings, limit, at, false) == Scan(m, base, strings, |m|, at, false)
  {
    ReadBlock(RegIn(m, strings), around);
    ScanUpTo(m, base, strings, limit, at, BlockTokens(around));
  }

  lemma ScanUpTo(m: Bytes, base: nat, strings: nat, limit: nat, at: nat, ts: Tokens)
    requires base % 4 == 0 && Whole(at) && TokensFit(m, strings, ts) && Read(RegIn(m, strings), ts, false) != Fault
    requires Laid(m, at, TokensBytes(ts), limit)
    ensures Scan(m, base, strings, limit, at, false) == Read(RegIn(m, strings), ts, false)
    ensures Scan(m, base, strings, |m|, at, false) == Read(RegIn(m, strings), ts, false)
  {
    ScanReads(m, base, strings, limit, at, false, ts);
    ScanWithin(m, base, strings, limit, at, false);
  }

  lemma ReadBlock(reg: Registers, around: Kids)
    ensures Read(reg, BlockTokens(around), false) == Answered(SearchKids(reg, around, false), NotFound)
  {
    ReadKids(reg, around, Then(End, Stop), false);
    assert Read(reg, Then(End, Stop), After(around, false)) == NotFound;
  }

  // ---------- the first memory node ----------

  /** The first node, in the order of the blob, that is named "memory...". */
  function FirstMemory(t: Tree): Option<Tree>
    decreases t, 1
  {
    if MemoryName(t.name) then Some(t) else FirstMemoryOf(t.kids)
  }

  function FirstMemoryOf(ks: Kids): Option<Tree>
    decreases ks, 0
  {
    match ks
    case NoKids => None
    case Gap(rest) => FirstMemoryOf(rest)
    case Kid(node, rest) => if FirstMemory(node).Some? then FirstMemory(node) else FirstMemoryOf(rest)
  }

  /** Its reg is what is found, if it has one of 16 bytes or more; and nothing is found where there is no such node. */
  lemma {:induction false} FindsFirstMemory(reg: Registers, ks: Kids)
    ensures match FirstMemoryOf(ks)
            case None => SearchKids(reg, ks, false) == None
            case Some(n) => Reg(reg, n.props).Some? ==> SearchKids(reg, ks, false) == Reg(reg, n.props)
    decreases ks
  {
    match ks
    case NoKids =>
    case Gap(rest) => FindsFirstMemory(reg, rest);
    case Kid(node, rest) =>
      FindsFirstMemory(reg, node.kids);
      FindsFirstMemory(reg, rest);
      assert FirstMemory(node) == if MemoryName(node.name) then Some(node) else FirstMemoryOf(node.kids);
      assert Search(reg, node, false) == if MemoryName(node.name)
          && Reg(reg, node.props).Some? then Reg(reg, node.props) else SearchKids(reg, node.kids,
              MemoryName(node.name));
  }

  // ---------- memory nodes without a reg ----------

  /** All nodes, in the order of the blob. */
  function Nodes(ks: Kids): seq<Tree>
    decreases ks
  {
    match ks
    case NoKids => []
    case Gap(rest) => Nodes(rest)
    case Kid(node, rest) => [node] + Nodes(node.kids) + Nodes(rest)
  }

  predicate MemoryReg(reg: Registers, t: Tree) {
    MemoryName(t.name) && Reg(reg, t.props).Some?
  }

  function Shifted(i: Option<nat>, n: nat): Option<nat> {
    match i
    case None => None
    case Some(k) => Some(k + n)
  }

  /** The place of the first memory node that has a reg: the one that is meant. */
  function FirstAt(reg: Registers, ns: seq<Tree>): Option<nat> {
    if ns == [] then None else if MemoryReg(reg, ns[0]) then Some(0) else Shifted(FirstAt(reg, ns[1..]), 1)
  }

  /** The place of the node whose reg is found in a tree, that of its root being 0. */
  function FoundIn(reg: Registers, t: Tree, covered: bool): Option<nat>
    decreases t, 1
  {
    var on := covered || MemoryName(t.name);
    if on && Reg(reg, t.props).Some? then Some(0) else Shifted(FoundAt(reg, t.kids, on), 1)
  }

  function FoundAt(reg: Registers, ks: Kids, covered: bool): Option<nat>
    decreases ks, 0
  {
    match ks
    case NoKids => None
    case Gap(rest) => FoundAt(reg, rest, covered)
    case Kid(node, rest) =>
      Either(FoundIn(reg, node, covered), FoundAt(reg, rest, false), 1 + |Nodes(node.kids)|)
  }

  /** The first of two answers, where the second is about what comes n nodes on. */
  function Either(i: Option<nat>, j: Option<nat>, n: nat): Option<nat> {
    if i.Some? then i else Shifted(j, n)
  }

  /** What is found is the reg of the node at place i. */
  ghost predicate There(reg: Registers, ns: seq<Tree>, i: Option<nat>, r: Option<(nat, nat)>) {
    if i.None? then r == None else i.value < |ns| && r == Reg(reg, ns[i.value].props) && r.Some?
  }

  lemma ThereJoins(reg: Registers, a: seq<Tree>, i: Option<nat>, r: Option<(nat, nat)>,
      b: seq<Tree>, j: Option<nat>, q: Option<(nat, nat)>)
    requires There(reg, a, i, r) && There(reg, b, j, q)
    ensures There(reg, a + b, Either(i, j, |a|), if r.Some? then r else q)
  {
  }

  lemma ThereBelow(reg: Registers, t: Tree, ns: seq<Tree>, i: Option<nat>, r: Option<(nat, nat)>)
    requires There(reg, ns, i, r)
    ensures There(reg, [t] + ns, Shifted(i, 1), r)
  {
    assert i.Some? ==> ([t] + ns)[i.value + 1] == ns[i.value];
  }

  lemma {:induction false} FoundIsThere(reg: Registers, ks: Kids, covered: bool)
    ensures There(reg, Nodes(ks), FoundAt(reg, ks, covered), SearchKids(reg, ks, covered))
    decreases ks
  {
    match ks
    case NoKids =>
    case Gap(rest) => FoundIsThere(reg, rest, covered);
    case Kid(node, rest) =>
      NodeIsThere(reg, node, covered);
      FoundIsThere(reg, rest, false);
      ThereJoins(reg, [node] + Nodes(node.kids), FoundIn(reg, node, covered), Search(reg, node, covered),
          Nodes(rest), FoundAt(reg, rest, false), SearchKids(reg, rest, false));
  }

  lemma {:induction false} NodeIsThere(reg: Registers, t: Tree, covered: bool)
    ensures There(reg, [t] + Nodes(t.kids), FoundIn(reg, t, covered), Search(reg, t, covered))
    decreases t
  {
    var on := covered || MemoryName(t.name);
    if !(on && Reg(reg, t.props).Some?) {
      FoundIsThere(reg, t.kids, on);
      ThereBelow(reg, t, Nodes(t.kids), FoundAt(reg, t.kids, on), SearchKids(reg, t.kids, on));
    }
  }

  /** The first node with a reg on the way from first subnode to first subnode. */
  function FirstHolder(reg: Registers, ks: Kids): Option<Tree>
    decreases ks
  {
    match ks
    case NoKids => None
    case Gap(rest) => FirstHolder(reg, rest)
    case Kid(node, _) => if Reg(reg, node.props).Some? then Some(node) else FirstHolder(reg, node.kids)
  }

  /** That node is there, and is no memory node. */
  predicate Luring(reg: Registers, ks: Kids) {
    FirstHolder(reg, ks).Some? && !MemoryName(FirstHolder(reg, ks).value.name)
  }

  /** No memory node before the first one with a reg has such a way below it. */
  predicate Straight(reg: Registers, ns: seq<Tree>) {
    ns != [] && !MemoryReg(reg, ns[0]) ==>
      !(MemoryName(ns[0].name) && Luring(reg, ns[0].kids)) && Straight(reg, ns[1..])
  }

  lemma {:induction false} StraightJoins(reg: Registers, a: seq<Tree>, b: seq<Tree>)
    ensures Straight(reg, a + b) <==> Straight(reg, a) && (FirstAt(reg, a).Some? || Straight(reg, b))
    ensures FirstAt(reg, a + b) ==
      if FirstAt(reg, a).Some? then FirstAt(reg, a) else Shifted(FirstAt(reg, b), |a|)
  {
    if a == [] {
      assert a + b == b;
    } else {
      StraightJoins(reg, a[1..], b);
      assert (a + b)[1..] == a[1..] + b;
    }
  }

  /** Place i is that of the first memory node with a reg; or, off the straight way, that of another node. */
  ghost predicate Settled(reg: Registers, ns: seq<Tree>, i: Option<nat>, straight: bool) {
    (if straight then i == FirstAt(reg, ns)
     else i.Some? && i.value < |ns| && !MemoryName(ns[i.value].name)) == true
  }

  lemma SettledJoins(reg: Registers, a: seq<Tree>, i: Option<nat>, straight: bool, b: seq<Tree>, j: Option<nat>)
    requires Settled(reg, a, i, straight) && (straight ==> Straight(reg, a))
    requires Settled(reg, b, j, Straight(reg, b))
    ensures Settled(reg, a + b, Either(i, j, |a|), straight && Straight(reg, a + b))
  {
    StraightJoins(reg, a, b);
  }

  lemma SettledBelow(reg: Registers, t: Tree, ns: seq<Tree>, i: Option<nat>, straight: bool)
    requires Settled(reg, ns, i, straight) && !MemoryReg(reg, t)
    ensures Settled(reg, [t] + ns, Shifted(i, 1), straight)
  {
    assert ([t] + ns)[1..] == ns;
    assert i.Some? && i.value < |ns| ==> ([t] + ns)[i.value + 1] == ns[i.value];
  }

  /** The way below these nodes is straight, and nothing on it is taken for a node above it. */
  ghost predicate Clear(reg: Registers, ks: Kids, covered: bool) {
    Straight(reg, Nodes(ks)) && !(covered && Luring(reg, ks))
  }

  lemma {:induction false} StraightFinds(reg: Registers, ks: Kids, covered: bool)
    ensures Settled(reg, Nodes(ks), FoundAt(reg, ks, covered), Clear(reg, ks, covered))
    decreases ks
  {
    match ks
    case NoKids =>
    case Gap(rest) => StraightFinds(reg, rest, covered);
    case Kid(node, rest) =>
      var on := covered || MemoryName(node.name);
      var inner, beyond := Nodes(node.kids), Nodes(rest);
      assert Nodes(ks) == [node] + (inner + beyond);
      if on && Reg(reg, node.props).Some? {
        AtOnce(reg, node, inner + beyond, rest, covered);
      } else {
        var i, j := FoundAt(reg, node.kids, on), FoundAt(reg, rest, false);
        StraightFinds(reg, node.kids, on);
        StraightFinds(reg, rest, false);
        SettledJoins(reg, inner, i, Clear(reg, node.kids, on), beyond, j);
        SettledBelow(reg, node, inner + beyond, Either(i, j, |inner|),
            Clear(reg, node.kids, on) && Straight(reg, inner + beyond));
        ClearBelow(reg, node, rest, covered);
      }
  }

  lemma AtOnce(reg: Registers, t: Tree, ns: seq<Tree>, rest: Kids, covered: bool)
    requires (covered || MemoryName(t.name)) && Reg(reg, t.props).Some?
    ensures Settled(reg, [t] + ns, Some(0), Straight(reg, [t] + ns) && !(covered && Luring(reg, Kid(t, rest))))
  {
  }

  lemma ClearBelow(reg: Registers, t: Tree, rest: Kids, covered: bool)
    requires !((covered || MemoryName(t.name)) && Reg(reg, t.props).Some?)
    ensures Clear(reg, Kid(t, rest), covered) <==>
      Clear(reg, t.kids, covered || MemoryName(t.name)) && Straight(reg, Nodes(t.kids) + Nodes(rest))
  {
    var ns := Nodes(t.kids) + Nodes(rest);
    assert Nodes(Kid(t, rest)) == [t] + ns && ([t] + ns)[1..] == ns;
    StraightJoins(reg, Nodes(t.kids), Nodes(rest));
  }

  lemma {:induction false} FirstIsMemory(reg: Registers, ns: seq<Tree>)
    ensures FirstAt(reg, ns).Some? ==> FirstAt(reg, ns).value < |ns| && MemoryReg(reg, ns[FirstAt(reg, ns).value])
  {
    if ns != [] { FirstIsMemory(reg, ns[1..]); }
  }

  /** The first reg of a memory node is found, or none where there is none, if and only if no memory node before it
      has a way of first subnodes on which another node's reg comes first; if one has, such a node's reg is found. */
  lemma FindsFirstReg(reg: Registers, ks: Kids)
    ensures FoundAt(reg, ks, false) == FirstAt(reg, Nodes(ks)) <==> Straight(reg, Nodes(ks))
    ensures !Straight(reg, Nodes(ks)) ==>
      var i := FoundAt(reg, ks, false);
      i.Some? && i.value < |Nodes(ks)| && !MemoryName(Nodes(ks)[i.value].name)
  {
    StraightFinds(reg, ks, false);
    FirstIsMemory(reg, Nodes(ks));
  }

  /** It fails: a memory node without a reg, and in it a node "c" with one, which is taken. */
  lemma SubnodeTaken(reg: Registers, nameoff: nat, value: Bytes)
    requires reg(Prop(nameoff, value)).Some?
    ensures var inner := Node([99], Property(nameoff, value, NoProps), NoKids);
      var ks := Kid(Node(MEMORY, NoProps, Kid(inner, NoKids)), NoKids);
      && SearchKids(reg, ks, false) == reg(Prop(nameoff, value))
      && FirstAt(reg, Nodes(ks)) == None && !Straight(reg, Nodes(ks))
  {
    var inner := Node([99], Property(nameoff, value, NoProps), NoKids);
    var outer := Node(MEMORY, NoProps, Kid(inner, NoKids));
    var ks := Kid(outer, NoKids);
    assert !MemoryName(inner.name) && MemoryName(MEMORY);
    assert Reg(reg, inner.props) == reg(Prop(nameoff, value));
    assert Search(reg, inner, true) == reg(Prop(nameoff, value));
    assert Search(reg, outer, false) == SearchKids(reg, outer.kids, true);
    assert Nodes(outer.kids) == [inner];
    assert Nodes(ks) == [outer, inner] && Nodes(ks)[1..] == [inner] && [inner][1..] == [];
    assert FirstHolder(reg, outer.kids) == Some(inner);
    assert FirstAt(reg, [inner]) == None;
  }

  // ---------- from the header on ----------

  /** The blob has the structure block of a tree where its header says, and property names in its strings block. */
  ghost predicate IsBlob(m: Bytes, around: Kids) {
    && |m| >= 40 && TokenAt(m, 0) == FDT_MAGIC && Whole(TokenAt(m, 8))
    && TokensFit(m, TokenAt(m, 12), BlockTokens(around))
    && Laid(m, TokenAt(m, 8), TokensBytes(BlockTokens(around)), |m|)
  }

  /** What the program finds in the blob of a tree: the reg at FoundAt, which is that of the first memory node with one
      exactly if the way there is straight; that of the first memory node if this has one; and nothing where there is
      no memory node. */
  lemma BlobFinds(m: Bytes, base: nat, around: Kids)
    requires base % 4 == 0 && IsBlob(m, around)
    ensures var reg, ns := RegIn(m, TokenAt(m, 12)), Nodes(around);
      && Extracted(m, base) == RegAt(reg, ns, FoundAt(reg, around, false))
      && (FoundAt(reg, around, false) == FirstAt(reg, ns) <==> Straight(reg, ns))
      && (FirstMemoryOf(around) == None ==> Extracted(m, base) == NotFound)
      && (FirstMemoryOf(around).Some? && Reg(reg, FirstMemoryOf(around).value.props).Some? ==>
          Extracted(m, base) == Answered(Reg(reg, FirstMemoryOf(around).value.props), NotFound))
  {
    var reg := RegIn(m, TokenAt(m, 12));
    ScanFinds(m, base, TokenAt(m, 12), |m|, TokenAt(m, 8), around);
    FoundIsThere(reg, around, false);
    FindsFirstMemory(reg, around);
    FindsFirstReg(reg, around);
  }

  /** The reg of the node at place i, as the program answers. */
  function RegAt(reg: Registers, ns: seq<Tree>, i: Option<nat>): Result {
    if i.Some? && i.value < |ns| then Answered(Reg(reg, ns[i.value].props), NotFound) else NotFound
  }
}
