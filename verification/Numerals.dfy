/** Numbers in positional notation, as one writes them: these definitions use nothing of the programs that print and
    read numbers.
 */
module Numerals {

  /** The character, in ASCII, is a digit worth d: '0' to '9', then letters of either case. */
  predicate Worth(c: char, d: nat) {
    if d < 10 then c as int == 48 + d else d < 36 && (c as int == 97 + (d - 10) || c as int == 65 + (d - 10))
  }

  /** It is a small letter, if it is a letter. */
  predicate Small(c: char, d: nat) {
    Worth(c, d) && (d >= 10 ==> c as int >= 97)
  }

  function Power(base: nat, n: nat): nat {
    if n == 0 then 1 else Power(base, n - 1) * base
  }

  /** The number with these digits, the first one counting most. */
  function Positional(ds: seq<nat>, base: nat): nat {
    if ds == [] then 0 else ds[0] * Power(base, |ds| - 1) + Positional(ds[1..], base)
  }

  /** The characters of t are these digits. */
  ghost predicate Spells(t: string, ds: seq<nat>, base: nat) {
    |ds| == |t| && forall i :: 0 <= i < |t| ==> ds[i] < base && Worth(t[i], ds[i])
  }

  /** num is written in the small digits, without leading zeros, at the end of a field of that width. */
  ghost predicate WrittenAs(text: string, ds: seq<nat>, num: nat, base: nat, width: int, padc: char) {
    && ds != [] && Positional(ds, base) == num && (|ds| > 1 ==> ds[0] != 0)
    && |text| == (if width > |ds| then width else |ds|)
    && (forall i :: 0 <= i < |text| - |ds| ==> text[i] == padc)
    && forall k :: 0 <= k < |ds| ==> ds[k] < base && Small(text[|text| - |ds| + k], ds[k])
  }

  ghost predicate Written(text: string, num: nat, base: nat, width: int, padc: char) {
    exists ds :: WrittenAs(text, ds, num, base, width, padc)
  }

  /** val is x, wrapped to a signed word with so many values. */
  predicate Wraps(val: int, x: int, values: int)
    requires values > 0
  {
    -values <= 2 * val < values && (val - x) % values == 0
  }

  lemma Regroup(x: nat, p: nat, q: nat, base: nat, d: nat)
    ensures x * (p * base) + (q * base + d) == (x * p + q) * base + d
  {
    assert x * (p * base) == x * p * base;
  }

  /** One more digit at the end. */
  lemma {:induction false} PositionalOn(ds: seq<nat>, d: nat, base: nat)
    ensures Positional(ds + [d], base) == Positional(ds, base) * base + d
  {
    if ds == [] {
      assert [d][1..] == [];
    } else {
      assert (ds + [d])[1..] == ds[1..] + [d];
      PositionalOn(ds[1..], d, base);
      Regroup(ds[0], Power(base, |ds| - 1), Positional(ds[1..], base), base, d);
    }
  }
}
