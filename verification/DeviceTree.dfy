/** The scanner for the memory node of a flattened device tree
    (lab2/kern/driver/dtb.c), and the trees that such a blob stands for: the
    structure block of section 5.4 and the strings block of section 5.5 of the
    Devicetree Specification.
 */
module DeviceTree {
  import opened Octets

  const BEGIN_NODE: nat := 1
  const END_NODE: nat := 2
  const PROP: nat := 3
  const NOP: nat := 4
  const END: nat := 9

  /** "memory" and "reg" */
  const MEMORY: Bytes := [109, 101, 109, 111, 114, 121]
  const REG: Bytes := [114, 101, 103]

  // ---------- byte order ----------

  /** The swap of a word that was read as little-endian. */
  function Fdt32ToCpu(x: nat): (r: nat)
    ensures r < U32
  {
    x % 256 * 0x100_0000 + x / 256 % 256 * 0x1_0000 + x / 256 / 256 % 256 * 256 + x / 256 / 256 / 256 % 256
  }

  function Fdt64ToCpu(x: nat): nat {
    Fdt32ToCpu(x % U32) * U32 + Fdt32ToCpu(x / U32)
  }

  function ReadWord64(b: Bytes, at: nat): nat
    requires at + 8 <= |b|
  {
    ReadWord32(b, at) + U32 * ReadWord32(b, at + 4)
  }

  /** The number that bytes spell, the first one counting most. */
  function BigEndian(b: Bytes): nat {
    if b == [] then 0 else BigEndian(b[..|b| - 1]) * 256 + b[|b| - 1] as nat
  }

  /** The last n digits of x to base 256, the first one counting most. */
  function Digits(x: nat, n: nat): (b: Bytes)
    ensures |b| == n
    decreases x, n
  {
    if n == 0 then [] else Digits(x / 256, n - 1) + [x % 256]
  }

  /** A 32-bit number as the blob has it. */
  function Cell(x: nat): (b: Bytes)
    ensures |b| == 4
  {
    Digits(x, 4)
  }

  function Bound(n: nat): nat {
    if n == 0 then 1 else 256 * Bound(n - 1)
  }

  lemma {:induction false} DigitsSpell(x: nat, n: nat)
    requires x < Bound(n)
    ensures BigEndian(Digits(x, n)) == x
    decreases n
  {
    if n > 0 {
      DigitsSpell(x / 256, n - 1);
      var b := Digits(x, n);
      assert b[..n - 1] == Digits(x / 256, n - 1);
    }
  }

  lemma BigEndianFour(b: Bytes)
    requires |b| == 4
    ensures BigEndian(b) == ((b[0] as nat * 256 + b[1] as nat) * 256 + b[2] as nat) * 256 + b[3] as nat
  {
    assert b[..3][..2] == b[..2] && b[..2][..1] == b[..1];
    assert BigEndian(b[..1]) == b[0] as nat by { assert b[..1][..0] == []; }
    assert BigEndian(b[..2]) == b[0] as nat * 256 + b[1] as nat;
    assert BigEndian(b[..3]) == (b[0] as nat * 256 + b[1] as nat) * 256 + b[2] as nat;
  }

  lemma WordBytes(b: Bytes, at: nat)
    requires at + 4 <= |b|
    ensures var x := ReadWord32(b, at);
      x < U32 && x % 256 == b[at] && x / 256 % 256 == b[at + 1] && x / 256 / 256 % 256 == b[at + 2]
          && x / 256 / 256 / 256 % 256 == b[at + 3]
  {
    var x3 := b[at + 3] as nat;
    var x2 := b[at + 2] as nat + 256 * x3;
    var x1 := b[at + 1] as nat + 256 * x2;
    var x := b[at] as nat + 256 * x1;
    assert x / 256 == x1 && x1 / 256 == x2 && x2 / 256 == x3;
  }

  /** Swapping what was read as little-endian gives the big-endian number. */
  lemma SwapReadsBigEndian(b: Bytes, at: nat)
    requires at + 4 <= |b|
    ensures Fdt32ToCpu(ReadWord32(b, at)) == BigEndian(b[at..at + 4])
  {
    WordBytes(b, at);
    BigEndianFour(b[at..at + 4]);
  }

  lemma {:induction false} BigEndianJoins(a: Bytes, b: Bytes)
    requires |b| == 4
    ensures BigEndian(a + b) == BigEndian(a) * U32 + BigEndian(b)
  {
    var c := a + b;
    assert c[..|c| - 1] == a + b[..3] && (a + b[..3])[..|a| + 2] == a + b[..2]
        && (a + b[..2])[..|a| + 1] == a + b[..1] && (a + b[..1])[..|a|] == a;
    BigEndianFour(b);
    assert BigEndian(a + b[..1]) == BigEndian(a) * 256 + b[0] as nat;
    assert BigEndian(a + b[..2]) == BigEndian(a + b[..1]) * 256 + b[1] as nat;
    assert BigEndian(a + b[..3]) == BigEndian(a + b[..2]) * 256 + b[2] as nat;
  }

  lemma Halves(lo: nat, hi: nat)
    requires lo < U32
    ensures (lo + U32 * hi) % U32 == lo && (lo + U32 * hi) / U32 == hi
  {
  }

  lemma SwapReadsBigEndian64(b: Bytes, at: nat)
    requires at + 8 <= |b|
    ensures Fdt64ToCpu(ReadWord64(b, at)) == BigEndian(b[at..at + 8])
  {
    var lo, hi := ReadWord32(b, at), ReadWord32(b, at + 4);
    assert lo < U32 by { WordBytes(b, at); }
    Halves(lo, hi);
    SwapReadsBigEndian(b, at);
    SwapReadsBigEndian(b, at + 4);
    assert b[at..at + 8] == b[at..at + 4] + b[at + 4..at + 8];
    BigEndianJoins(b[at..at + 4], b[at + 4..at + 8]);
  }

  /** A cell is read back. */
  lemma CellRoundTrip(x: nat)
    requires x < U32
    ensures BigEndian(Cell(x)) == x
  {
    assert Bound(4) == U32;
    DigitsSpell(x, 4);
  }

  // ---------- the scanner ----------

  /** What the scan returns; a Fault is a read past the blob, which the program does not check for. */
  datatype Result = Found(start: nat, size: nat) | NotFound | Fault

  function TokenAt(m: Bytes, at: nat): nat
    requires at + 4 <= |m|
  {
    BigEndian(m[at..at + 4])
  }

  /** strlen of the string at at, or the distance to limit if it has no end before. */
  function StrLen(m: Bytes, at: nat, limit: nat): (n: nat)
    requires at <= limit <= |m|
    ensures at + n <= limit && (forall i :: at <= i < at + n ==> m[i] != 0) && (at + n < limit ==> m[at + n] == 0)
    decreases limit - at
  {
    if at == limit || m[at] == 0 then 0 else 1 + StrLen(m, at + 1, limit)
  }

  /** strncmp(name, "memory", 6) == 0 for a name of n bytes */
  predicate IsMemory(m: Bytes, at: nat, n: nat)
    requires at + n <= |m|
  {
    n >= 6 && m[at..at + 6] == MEMORY
  }

  datatype Answer = Yes | No | Wild

  /** strcmp(name, "reg") == 0; comparing stops at the first difference. */
  function IsReg(m: Bytes, at: nat): Answer {
    if at >= |m| then Wild else if m[at] != REG[0] then No
    else if at + 1 >= |m| then Wild else if m[at + 1] != REG[1] then No
    else if at + 2 >= |m| then Wild else if m[at + 2] != REG[2] then No
    else if at + 3 >= |m| then Wild else if m[at + 3] != 0 then No
    else Yes
  }

  /** The address base + x rounded down to a multiple of 4, as an offset again. */
  function Align(base: nat, x: nat): (r: nat)
    requires x >= 3
    ensures x - 3 <= r <= x
  {
    (base + x) / 4 * 4 - base
  }

  /** Between two tokens, or done. */
  datatype State = At(at: nat, inMemory: bool) | Halt(r: Result)

  /** One turn of the loop of extract_memory_info, in a structure block that ends at limit. Numbers are big-endian. */
  function Step(m: Bytes, base: nat, strings: nat, limit: nat, at: nat, inMemory: bool): (s: State)
    requires limit <= |m|
    ensures s.At? ==> at < s.at && at < limit
  {
    if at + 4 > limit then Halt(Fault)
    else
      var token, p := TokenAt(m, at), at + 4;
      if token == BEGIN_NODE then
        var n := StrLen(m, p, limit);
        if p + n >= limit then Halt(Fault) else At(Align(base, p + n + 4), inMemory || IsMemory(m, p, n))
      else if token == END_NODE then At(p, false)
      else if token == PROP then StepProp(m, base, strings, limit, p, inMemory)
      else if token == NOP then At(p, inMemory)
      else Halt(NotFound)
  }

  /** The same for a property, past its token. */
  function StepProp(m: Bytes, base: nat, strings: nat, limit: nat, p: nat, inMemory: bool): (s: State)
    requires limit <= |m|
    ensures s.At? ==> p < s.at && p < limit
  {
    if p + 8 > limit then Halt(Fault)
    else
      var len, nameoff := TokenAt(m, p), TokenAt(m, p + 4);
      var isReg := if inMemory then IsReg(m, strings + nameoff) else No;
      if isReg == Wild then Halt(Fault)
      else if isReg == Yes && len >= 16 then
        Halt(if p + 24 > limit then Fault else Found(BigEndian(m[p + 8..p + 16]), BigEndian(m[p + 16..p + 24])))
      else At(Align(base, p + 8 + len + 3), inMemory)
  }

  function Scan(m: Bytes, base: nat, strings: nat, limit: nat, at: nat, inMemory: bool): Result
    requires limit <= |m|
    decreases limit - at
  {
    match Step(m, base, strings, limit, at, inMemory)
    case Halt(r) => r
    case At(at', inMemory') => Scan(m, base, strings, limit, at', inMemory')
  }

  /** extract_memory_info on a blob at address base; the offsets of both blocks are in its header. */
  method ExtractMemoryInfo(m: Bytes, base: nat) returns (r: Result)
    requires |m| >= 40
    ensures r == Scan(m, base, TokenAt(m, 12), |m|, TokenAt(m, 8), false)
  {
    SwapReadsBigEndian(m, 8);
    SwapReadsBigEndian(m, 12);
    var structPtr, strings := Fdt32ToCpu(ReadWord32(m, 8)), Fdt32ToCpu(ReadWord32(m, 12));
    var inMemory := false;
    while true
      invariant Scan(m, base, strings, |m|, structPtr, inMemory) ==
          Scan(m, base, TokenAt(m, 12), |m|, TokenAt(m, 8), false)
      decreases |m| - structPtr
    {
      var s := TakeToken(m, base, strings, structPtr, inMemory);
      match s
      case Halt(result) => return result;
      case At(at, inside) => structPtr, inMemory := at, inside;
    }
  }

  const FDT_MAGIC: nat := 0xd00dfeed

  /** What is found in the blob at address base, from its header on. */
  function Extracted(m: Bytes, base: nat): Result
    requires |m| >= 40
  {
    if TokenAt(m, 0) != FDT_MAGIC then NotFound else Scan(m, base, TokenAt(m, 12), |m|, TokenAt(m, 8), false)
  }

  /** dtb_init, on a blob that has a header. */
  method DtbInit(m: Bytes, base: nat) returns (r: Result)
    requires |m| >= 40
    ensures r == Extracted(m, base)
  {
    SwapReadsBigEndian(m, 0);
    if Fdt32ToCpu(ReadWord32(m, 0)) != FDT_MAGIC { return NotFound; }
    r := ExtractMemoryInfo(m, base);
  }

  /** The body of the loop: reads a token and switches on it. */
  method TakeToken(m: Bytes, base: nat, strings: nat, start: nat, inside: bool) returns (s: State)
    ensures s == Step(m, base, strings, |m|, start, inside)
  {
    var structPtr, inMemory := start, inside;
    if structPtr + 4 > |m| { return Halt(Fault); }
    SwapReadsBigEndian(m, structPtr);
    var token := Fdt32ToCpu(ReadWord32(m, structPtr));
    structPtr := structPtr + 4;
    if token == BEGIN_NODE {
      var nameLen := StrLen(m, structPtr, |m|);
      if structPtr + nameLen >= |m| { return Halt(Fault); }
      if IsMemory(m, structPtr, nameLen) {
        inMemory := true;
      }
      structPtr := Align(base, structPtr + nameLen + 4);
    } else if token == END_NODE {
      inMemory := false;
    } else if token == PROP {
      s := TakeProp(m, base, strings, structPtr, inMemory);
      return;
    } else if token != NOP {
      return Halt(NotFound);
    }
    s := At(structPtr, inMemory);
  }

  method TakeProp(m: Bytes, base: nat, strings: nat, start: nat, inMemory: bool) returns (s: State)
    ensures s == StepProp(m, base, strings, |m|, start, inMemory)
  {
    var structPtr := start;
    if structPtr + 8 > |m| { return Halt(Fault); }
    SwapReadsBigEndian(m, structPtr);
    SwapReadsBigEndian(m, structPtr + 4);
    var propLen := Fdt32ToCpu(ReadWord32(m, structPtr));
    var nameoff := Fdt32ToCpu(ReadWord32(m, structPtr + 4));
    structPtr := structPtr + 8;
    if inMemory {
      var isReg := IsReg(m, strings + nameoff);
      if isReg == Wild { return Halt(Fault); }
      if isReg == Yes && propLen >= 16 {
        if structPtr + 16 > |m| { return Halt(Fault); }
        SwapReadsBigEndian64(m, structPtr);
        SwapReadsBigEndian64(m, structPtr + 8);
        return Halt(Found(Fdt64ToCpu(ReadWord64(m, structPtr)), Fdt64ToCpu(ReadWord64(m, structPtr + 8))));
      }
    }
    s := At(Align(base, structPtr + propLen + 3), inMemory);
  }

  /** A scan that is done before limit never looks past it. */
  lemma {:induction false} ScanWithin(m: Bytes, base: nat, strings: nat, limit: nat, at: nat, inMemory: bool)
    requires limit <= |m| && Scan(m, base, strings, limit, at, inMemory) != Fault
    ensures Scan(m, base, strings, |m|, at, inMemory) == Scan(m, base, strings, limit, at, inMemory)
    decreases limit - at
  {
    var s := Step(m, base, strings, limit, at, inMemory);
    StepWithin(m, base, strings, limit, at, inMemory);
    if s.At? { ScanWithin(m, base, strings, limit, s.at, s.inMemory); }
  }

  lemma StepWithin(m: Bytes, base: nat, strings: nat, limit: nat, at: nat, inMemory: bool)
    requires limit <= |m| && Step(m, base, strings, limit, at, inMemory) != Halt(Fault)
    ensures Step(m, base, strings, |m|, at, inMemory) == Step(m, base, strings, limit, at, inMemory)
  {
    if TokenAt(m, at) == BEGIN_NODE { StrLenWithin(m, at + 4, limit); }
  }

  lemma {:induction false} StrLenWithin(m: Bytes, at: nat, limit: nat)
    requires at <= limit <= |m| && at + StrLen(m, at, limit) < limit
    ensures StrLen(m, at, |m|) == StrLen(m, at, limit)
    decreases limit - at
  {
    if m[at] != 0 { StrLenWithin(m, at + 1, limit); }
  }
}
