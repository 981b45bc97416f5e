/** Bytes in memory: little-endian words, and C strings. */
module Octets {

  type byte = b: int | 0 <= b < 256
  type Bytes = seq<byte>

  const U16: nat := 0x1_0000
  const U32: nat := 0x1_0000_0000

  // ---------- words ----------

  function Word16(x: nat): (b: Bytes)
    ensures |b| == 2
  {
    [x % 256, x / 256 % 256]
  }

  function Word32(x: nat): (b: Bytes)
    ensures |b| == 4
  {
    [x % 256, x / 256 % 256, x / 256 / 256 % 256, x / 256 / 256 / 256 % 256]
  }

  function ReadWord16(b: Bytes, at: nat): nat
    requires at + 2 <= |b|
  {
    b[at] as nat + 256 * b[at + 1] as nat
  }

  function ReadWord32(b: Bytes, at: nat): nat
    requires at + 4 <= |b|
  {
    b[at] as nat + 256 * (b[at + 1] as nat + 256 * (b[at + 2] as nat + 256 * b[at + 3] as nat))
  }

  lemma SplitWord(x: nat)
    requires x < U32
    ensures x == x % 256 + 256 * (x / 256 % 256 + 256 * (x / 256 / 256 % 256 + 256 * (x / 256 / 256 / 256 % 256)))
  {
    var a := x / 256;
    var b := a / 256;
    var c := b / 256;
    assert x == x % 256 + 256 * a;
    assert a == a % 256 + 256 * b;
    assert b == b % 256 + 256 * c;
    assert c % 256 == c;
  }

  lemma Word32RoundTrip(x: nat, b: Bytes, at: nat)
    requires at + 4 <= |b| && b[at..at + 4] == Word32(x) && x < U32
    ensures ReadWord32(b, at) == x
  {
    var w := b[at..at + 4];
    assert w[0] == b[at] && w[1] == b[at + 1] && w[2] == b[at + 2] && w[3] == b[at + 3];
    SplitWord(x);
  }

  lemma Word16RoundTrip(x: nat, b: Bytes, at: nat)
    requires at + 2 <= |b| && b[at..at + 2] == Word16(x) && x < U16
    ensures ReadWord16(b, at) == x
  {
    var w := b[at..at + 2];
    assert w[0] == b[at] && w[1] == b[at + 1];
  }

  function Words(xs: seq<nat>): (b: Bytes)
    ensures |b| == 4 * |xs|
  {
    if xs == [] then [] else Word32(xs[0]) + Words(xs[1..])
  }

  lemma {:induction false} WordsAt(xs: seq<nat>, k: nat)
    requires k < |xs|
    ensures Words(xs)[4 * k..4 * k + 4] == Word32(xs[k])
  {
    if k > 0 {
      WordsAt(xs[1..], k - 1);
      assert Words(xs)[4 * k..4 * k + 4] == Words(xs[1..])[4 * (k - 1)..4 * (k - 1) + 4];
    }
  }

  function Zeros(n: nat): (b: Bytes)
    ensures |b| == n
  {
    seq(n, _ => 0)
  }

  // ---------- C strings ----------

  predicate NoNul(name: Bytes) {
    forall i :: 0 <= i < |name| ==> name[i] != 0
  }

  /** A C string: everything before the first NUL, or before the end. */
  function CString(b: Bytes): (s: Bytes)
    ensures |s| <= |b| && s == b[..|s|]
    ensures NoNul(s)
    ensures |s| < |b| ==> b[|s|] == 0
  {
    if b == [] || b[0] == 0 then [] else [b[0]] + CString(b[1..])
  }

  lemma {:induction false} CStringIs(b: Bytes, s: Bytes)
    requires |s| <= |b| && s == b[..|s|] && NoNul(s) && (|s| < |b| ==> b[|s|] == 0)
    ensures CString(b) == s
  {
    if s != [] {
      CStringIs(b[1..], s[1..]);
    }
  }
}
