/** The bytes of a blob, written out: the numbers of sections 5.2 and 5.4 of the Devicetree Specification, and a small
    blob with its answer.
 */
module DeviceTreeBytes {
  import opened Octets
  import opened DeviceTree
  import opened DeviceTreeBlob
  import opened Wrappers

  /** x as four bytes, the first one counting most. */
  predicate FourBytes(b: Bytes, x: nat) {
    |b| == 4 && x == b[0] as nat * 16777216 + b[1] as nat * 65536 + b[2] as nat * 256 + b[3] as nat
  }

  lemma CellBytes(x: nat)
    requires x < U32
    ensures FourBytes(Cell(x), x)
  {
    CellRoundTrip(x);
    BigEndianFour(Cell(x));
  }

  lemma SameBytes(b: Bytes, c: Bytes, x: nat)
    requires FourBytes(b, x) && FourBytes(c, x)
    ensures b == c
  {
  }

  lemma SmallCell(x: nat)
    requires x < 256
    ensures Cell(x) == [0, 0, 0, x]
  {
    CellBytes(x);
    SameBytes(Cell(x), [0, 0, 0, x], x);
  }

  lemma ReadBytes(m: Bytes, at: nat)
    requires at + 4 <= |m|
    ensures FourBytes(m[at..at + 4], TokenAt(m, at))
  {
    BigEndianFour(m[at..at + 4]);
  }

  /** b, filled up to a multiple of four bytes with as few zeros as possible. */
  ghost predicate Filled(b: Bytes, c: Bytes) {
    && |b| <= |c| < |b| + 4 && |c| % 4 == 0 && c[..|b|] == b
    && forall i :: |b| <= i < |c| ==> c[i] == 0
  }

  lemma PaddedFilled(b: Bytes)
    ensures Filled(b, Padded(b))
  {
    WholeIs(|b|);
  }

  /** Each token of a structure block, byte for byte. */
  ghost predicate Spelled(t: Token, b: Bytes) {
    match t
    case BeginNode(name) => |b| >= 4 && b[..4] == [0, 0, 0, 1] && Filled(name + [0], b[4..])
    case EndNode => b == [0, 0, 0, 2]
    case Prop(nameoff, value) =>
      && |b| >= 12 && b[..4] == [0, 0, 0, 3] && FourBytes(b[4..8], |value|) && FourBytes(b[8..12], nameoff)
      && Filled(value, b[12..])
    case Nop => b == [0, 0, 0, 4]
    case End => b == [0, 0, 0, 9]
  }

  lemma TokenSpelled(t: Token)
    requires t.Prop? ==> t.nameoff < U32 && |t.value| < U32
    ensures Spelled(t, TokenBytes(t))
  {
    match t
    case BeginNode(name) =>
      SmallCell(1);
      PaddedFilled(name + [0]);
      assert TokenBytes(t)[4..] == Padded(name + [0]);
    case EndNode => SmallCell(2);
    case Prop(nameoff, value) =>
      SmallCell(3);
      CellBytes(|value|);
      CellBytes(nameoff);
      PaddedFilled(value);
      var b := TokenBytes(t);
      assert b[4..8] == Cell(|value|) && b[8..12] == Cell(nameoff) && b[12..] == Padded(value);
    case Nop => SmallCell(4);
    case End => SmallCell(9);
  }

  /** What makes bytes the blob of a tree: the magic number, the offsets of both blocks, and the structure block. */
  lemma BlobSpelled(m: Bytes, around: Kids, at: nat, strings: nat)
    requires |m| >= 40 && FourBytes(m[8..12], at) && FourBytes(m[12..16], strings)
    ensures IsBlob(m, around) <==>
      && m[0..4] == [208, 13, 254, 237] && at % 4 == 0 && TokensFit(m, strings, BlockTokens(around))
      && Laid(m, at, TokensBytes(BlockTokens(around)), |m|)
  {
    ReadBytes(m, 0);
    ReadBytes(m, 8);
    ReadBytes(m, 12);
    WholeIs(at);
    if m[0..4] == [208, 13, 254, 237] {
      assert FourBytes(m[0..4], 3490578157);
    }
    if TokenAt(m, 0) == FDT_MAGIC { SameBytes(m[0..4], [208, 13, 254, 237], 3490578157); }
  }

  /** A blob without the magic number gives nothing. */
  lemma MagicMatters(m: Bytes, base: nat)
    requires |m| >= 40 && m[0..4] != [208, 13, 254, 237]
    ensures Extracted(m, base) == NotFound
  {
    ReadBytes(m, 0);
    if TokenAt(m, 0) == FDT_MAGIC { SameBytes(m[0..4], [208, 13, 254, 237], 3490578157); }
  }

  // ---------- a small blob ----------

  const VALUE: Bytes := [0, 0, 0, 0, 128, 0, 0, 0] + [0, 0, 0, 0, 8, 0, 0, 0]

  /** The root, and in it a no-op and a node "memory" with a reg that starts at 0x8000_0000 and has 0x800_0000 bytes. */
  function MemoryNode(): Tree {
    Node([109, 101, 109, 111, 114, 121], Property(0, VALUE, NoProps), NoKids)
  }

  function SmallTree(): Kids {
    Kid(Node([], Blank(NoProps), Kid(MemoryNode(), NoKids)), NoKids)
  }

  /** Its structure block. */
  function SmallBlock(): Bytes {
    ([0, 0, 0, 1] + [0, 0, 0, 0]) + ([0, 0, 0, 4]
    + (([0, 0, 0, 1] + [109, 101, 109, 111, 114, 121, 0, 0])
    + (([0, 0, 0, 3] + [0, 0, 0, 16] + [0, 0, 0, 0] + VALUE)
    + ([0, 0, 0, 2] + ([0, 0, 0, 2] + [0, 0, 0, 9])))))
  }

  lemma NoneMissing(b: Bytes)
    requires |b| in {8, 16}
    ensures Padded(b) == b
  {
    WholeIs(|b|);
    assert Missing(|b|) == 0;
  }

  lemma RootToken()
    ensures TokenBytes(BeginNode([])) == [0, 0, 0, 1] + [0, 0, 0, 0]
  {
    SmallCell(1);
    WholeIs(1);
    assert Padded([] + [0]) == [0] + Zeros(3) == [0, 0, 0, 0];
  }

  lemma MemoryToken()
    ensures TokenBytes(BeginNode([109, 101, 109, 111, 114, 121])) ==
        [0, 0, 0, 1] + [109, 101, 109, 111, 114, 121, 0, 0]
  {
    SmallCell(1);
    WholeIs(7);
    var name: Bytes := [109, 101, 109, 111, 114, 121, 0];
    assert [109, 101, 109, 111, 114, 121] + [0] == name;
    assert Padded(name) == name + Zeros(1) == name + [0] == [109, 101, 109, 111, 114, 121, 0, 0];
  }

  lemma RegToken()
    ensures TokenBytes(Prop(0, VALUE)) == [0, 0, 0, 3] + [0, 0, 0, 16] + [0, 0, 0, 0] + VALUE
  {
    SmallCell(3);
    SmallCell(16);
    SmallCell(0);
    NoneMissing(VALUE);
  }

  lemma LastToken()
    ensures TokensBytes(Then(Token.End, Stop)) == [0, 0, 0, 9]
  {
    SmallCell(9);
    assert TokensBytes(Stop) == [];
  }

  lemma OneToken(t: Token, rest: Tokens, b: Bytes, c: Bytes)
    requires TokenBytes(t) == b && TokensBytes(rest) == c
    ensures TokensBytes(Then(t, rest)) == b + c
  {
  }

  /** Those are the bytes of the tree. */
  lemma SmallTreeBytes()
    ensures TokensBytes(BlockTokens(SmallTree())) == SmallBlock() && |SmallBlock()| == 64
  {
    SmallCell(2);
    SmallCell(4);
    RootToken();
    MemoryToken();
    RegToken();
    LastToken();
    var t7 := Then(Token.End, Stop);
    var t6 := Then(EndNode, t7);
    var t5 := Then(EndNode, t6);
    var t4 := Then(Prop(0, VALUE), t5);
    var t3 := Then(BeginNode([109, 101, 109, 111, 114, 121]), t4);
    var t2 := Then(Nop, t3);
    var t1 := Then(BeginNode([]), t2);
    SmallTokens(t1, t2, t3, t4, t5, t6);
    OneToken(EndNode, t7, [0, 0, 0, 2], [0, 0, 0, 9]);
    OneToken(EndNode, t6, [0, 0, 0, 2], TokensBytes(t6));
    OneToken(Prop(0, VALUE), t5, TokenBytes(Prop(0, VALUE)), TokensBytes(t5));
    OneToken(Nop, t3, [0, 0, 0, 4], TokensBytes(t3));
  }

  lemma SmallTokens(t1: Tokens, t2: Tokens, t3: Tokens, t4: Tokens, t5: Tokens, t6: Tokens)
    requires t6 == Then(EndNode, Then(Token.End, Stop)) && t5 == Then(EndNode, t6) && t4 == Then(Prop(0, VALUE), t5)
    requires t3 == Then(BeginNode([109, 101, 109, 111, 114, 121]), t4) && t2 == Then(Nop, t3)
    requires t1 == Then(BeginNode([]), t2)
    ensures BlockTokens(SmallTree()) == t1
  {
    assert KidTokens(NoKids, t6) == t6 && KidTokens(NoKids, t5) == t5;
    assert NodeTokens(MemoryNode(), t6) == t3;
    assert KidTokens(Kid(MemoryNode(), NoKids), t6) == t3;
  }

  lemma RegString(m: Bytes, strings: nat)
    requires strings + 4 <= |m| && m[strings..] == [114, 101, 103, 0]
    ensures HasString(m, strings) && CString(m[strings..]) == [114, 101, 103]
  {
    CStringIs(m[strings..], [114, 101, 103]);
  }

  lemma ValueNumbers()
    ensures BigEndian(VALUE[..8]) == 2147483648 && BigEndian(VALUE[8..16]) == 134217728
  {
    var hi: Bytes, lo: Bytes := [0, 0, 0, 0], [128, 0, 0, 0];
    var lo': Bytes := [8, 0, 0, 0];
    assert VALUE[..8] == hi + lo && VALUE[8..16] == hi + lo';
    BigEndianJoins(hi, lo);
    BigEndianJoins(hi, lo');
    BigEndianFour(hi);
    BigEndianFour(lo);
    BigEndianFour(lo');
  }

  /** What the program finds in the blob that has these bytes: the header's first four fields, the others being any; the
      structure block; and "reg" for the strings block. */
  lemma SmallBlobFound(m: Bytes, base: nat)
    requires base % 4 == 0 && |m| == 108 && m[0..4] == [208, 13, 254, 237]
    requires m[8..12] == [0, 0, 0, 40] && m[12..16] == [0, 0, 0, 104]
    requires m[40..104] == SmallBlock() && m[104..] == [114, 101, 103, 0]
    ensures Extracted(m, base) == DeviceTree.Found(2147483648, 134217728)
  {
    SmallTreeBytes();
    RegString(m, 104);
    SmallFits(m, 104);
    BlobSpelled(m, SmallTree(), 40, 104);
    ReadBytes(m, 12);
    SameNumber(m[12..16], TokenAt(m, 12), 104);
    BlobFinds(m, base, SmallTree());
    SmallReg(m, 104);
  }

  lemma SameNumber(b: Bytes, x: nat, y: nat)
    requires FourBytes(b, x) && FourBytes(b, y)
    ensures x == y
  {
  }

  lemma SmallFits(m: Bytes, strings: nat)
    requires HasString(m, strings)
    ensures TokensFit(m, strings, BlockTokens(SmallTree()))
  {
    var t6 := Then(EndNode, Then(Token.End, Stop));
    var t5 := Then(EndNode, t6);
    var t4 := Then(Prop(0, VALUE), t5);
    var t3 := Then(BeginNode([109, 101, 109, 111, 114, 121]), t4);
    var t2 := Then(Nop, t3);
    SmallTokens(Then(BeginNode([]), t2), t2, t3, t4, t5, t6);
    assert TokensFit(m, strings, t6) && TokensFit(m, strings, t5);
    assert TokensFit(m, strings, t4) && TokensFit(m, strings, t3);
  }

  lemma SmallReg(m: Bytes, strings: nat)
    requires strings < |m| && CString(m[strings..]) == [114, 101, 103]
    ensures FirstMemoryOf(SmallTree()) == Some(MemoryNode())
    ensures Reg(RegIn(m, strings), MemoryNode().props) == Some((2147483648, 134217728))
  {
    ValueNumbers();
    assert MemoryName(MemoryNode().name) && !MemoryName([]);
    assert FirstMemory(MemoryNode()) == Some(MemoryNode());
    assert FirstMemoryOf(Kid(MemoryNode(), NoKids)) == Some(MemoryNode());
    assert RegOf(m, strings, Prop(0, VALUE)) == Some((2147483648, 134217728));
  }
}
