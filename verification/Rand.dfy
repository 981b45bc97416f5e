/** The linear congruential generator of lab8/libs/rand.c.

    The generator is an object with one word of state. What its step computes
    is the affine map Next on 48-bit numbers; the period theorems are about
    iterating that map.
 */
module Rand {
  import opened Powers

  const MULTIPLIER: nat := 0x5DEECE66D
  const INCREMENT: nat := 0xB
  const RAND_MAX: nat := 2147483647
  const WORDS: nat := 0x1_0000_0000_0000_0000  // unsigned long long wraps modulo this
  const STATES: nat := 0x1_0000_0000_0000      // the mask (1LL << 48) - 1 keeps the residue modulo this

  class Generator {
    var next: nat

    constructor ()
      ensures next == 1
    {
      next := 1;
    }

    method Srand(seed: nat)
      modifies this
      ensures next == seed
    {
      next := seed;
    }

    /** The macro do_div does not parenthesise its base, so the reduction is by RAND_MAX and one is added after it. */
    method Rand() returns (r: nat)
      requires next < WORDS
      modifies this
      ensures next == Next(old(next)) && r == Output(next)
      ensures next < STATES && 1 <= r <= RAND_MAX
      ensures next == (old(next) * 25214903917 + 11) % 281474976710656 && Answers(next, r)
    {
      MaskAfterWrap(next * MULTIPLIER);
      AnswersIs((next * MULTIPLIER + INCREMENT) % STATES, Output((next * MULTIPLIER + INCREMENT) % STATES));
      next := (next * MULTIPLIER % WORDS + INCREMENT) % WORDS % STATES;
      var result := next / 4096;
      r := result % RAND_MAX + 1;
    }
  }

  lemma MaskAfterWrap(z: nat)
    ensures (z % WORDS + INCREMENT) % WORDS % STATES == (z + INCREMENT) % STATES
  {
    MaskOfWrapped(z);
    MaskOfWrapped(z % WORDS + INCREMENT);
    assert z == z / WORDS * WORDS + z % WORDS;
    MaskOfSum(z % WORDS + INCREMENT, z / WORDS * 0x1_0000);
  }

  lemma MaskOfSum(z: nat, q: nat)
    ensures (z + q * STATES) % STATES == z % STATES
  {
    assert z + q * STATES == (z / STATES + q) * STATES + z % STATES;
  }

  lemma MaskOfWrapped(z: nat)
    ensures z % WORDS % STATES == z % STATES
  {
    assert z == z % WORDS + z / WORDS * 0x1_0000 * STATES;
    MaskOfSum(z % WORDS, z / WORDS * 0x1_0000);
  }

  /** One step of the generator. */
  function Next(x: nat): (y: nat)
    ensures y < STATES
  {
    (x * MULTIPLIER + INCREMENT) % STATES
  }

  function Output(x: nat): nat {
    x / 4096 % RAND_MAX + 1
  }

  /** r is the answer that goes with a state: its low 12 bits do not count, and the number in the others is reduced to
      [1, 2^31 - 1], with 1 added. */
  predicate Answers(state: nat, r: nat) {
    1 <= r <= 2147483647 && r % 2147483647 == (state / 4096 + 1) % 2147483647
  }

  /** There is one such answer for each state, the one whose period is found below. */
  lemma AnswersIs(state: nat, r: nat)
    ensures Answers(state, r) <==> r == Output(state)
  {
    if 1 <= r <= 2147483647 { AnswerOf(state / 4096, r); }
  }

  lemma AnswerOf(q: nat, r: nat)
    requires 1 <= r <= 2147483647
    ensures r % 2147483647 == (q + 1) % 2147483647 <==> r == q % 2147483647 + 1
  {
  }

  /** The low 12 bits of a state make no difference to the answer; what those above them leave modulo 2^31 - 1 does. */
  lemma LowBitsIgnored(q: nat, d: nat, q': nat, d': nat, r: nat, r': nat)
    requires d < 4096 && d' < 4096 && Answers(4096 * q + d, r) && Answers(4096 * q' + d', r')
    ensures r % 2147483647 == (q + 1) % 2147483647
    ensures r == r' <==> q % 2147483647 == q' % 2147483647
  {
    AnswerOf(q, r);
    AnswerOf(q', r');
  }

  /** The first two states and answers, from the seed 1 that a program starts with. */
  lemma FirstAnswers(r: nat, r': nat)
    requires Answers(Iterate(1, 1), r) && Answers(Iterate(1, 2), r')
    ensures Iterate(1, 1) == 25214903928 && r == 6155983
    ensures Iterate(1, 2) == 206026503483683 && r' == 907315447
  {
    assert Iterate(1, 0) == 1;
    assert Iterate(1, 1) == Next(1);
    assert Iterate(1, 2) == Next(25214903928);
    AnswerOf(6155982, r);
    AnswerOf(206026503483683 / 4096, r');
  }

  /** The state after n steps. */
  function Iterate(x: nat, n: nat): (y: nat)
    ensures x < STATES ==> y < STATES
  {
    if n == 0 then x else Next(Iterate(x, n - 1))
  }

  // ---------- the affine map without reduction ----------

  function Affine(x: int, n: nat): int {
    if n == 0 then x else Affine(x, n - 1) * MULTIPLIER + INCREMENT
  }

  lemma {:induction false} AffineAdds(x: int, m: nat, n: nat)
    ensures Affine(x, m + n) == Affine(Affine(x, m), n)
  {
    if n > 0 { AffineAdds(x, m, n - 1); }
  }

  lemma {:induction false} Pow2Adds(m: nat, n: nat)
    ensures Pow2(m + n) == Pow2(m) * Pow2(n)
  {
    if n > 0 { Pow2Adds(m, n - 1); }
  }

  /** Over 2^k steps the map is x -> (1 + 2^(k+2) u) x + 2^k (2v + 1): the multiplier is 1 modulo 4, the increment
      odd. */
  function Doubled(k: nat): (c: (int, int)) {
    if k == 0 then ((MULTIPLIER - 1) / 4, (INCREMENT - 1) / 2)
    else
      var (u, v) := Doubled(k - 1);
      (u + 2 * Pow2(k - 1) * u * u, v + (2 * v + 1) * Pow2(k - 1) * u)
  }

  function Odd(c: (int, int), x: int): (o: int)
    ensures o % 2 == 1
  {
    2 * (c.1 + 2 * c.0 * x) + 1
  }

  lemma {:induction false} DoublingStep(x: int, k: nat)
    ensures Affine(x, Pow2(k)) == x + Pow2(k) * Odd(Doubled(k), x)
    decreases k
  {
    if k == 0 {
      OneStep(x);
    } else {
      var p, c := Pow2(k - 1), Doubled(k - 1);
      var y := Affine(x, p);
      AffineAdds(x, p, p);
      DoublingStep(x, k - 1);
      DoublingStep(y, k - 1);
      DoublingAlgebra(x, y, p, c.0, c.1);
    }
  }

  lemma OneStep(x: int)
    ensures Affine(x, Pow2(0)) == x + Pow2(0) * Odd(Doubled(0), x)
  {
    var (u, v) := Doubled(0);
    assert Affine(x, 1) == Affine(x, 0) * MULTIPLIER + INCREMENT;
    assert u == 0x5DEECE66C / 4 && v == 5;
  }

  lemma DoublingAlgebra(x: int, y: int, p: int, u: int, v: int)
    requires y == x + p * Odd((u, v), x)
    ensures y + p * Odd((u, v), y) == x + 2 * p * Odd((u + 2 * p * u * u, v + (2 * v + 1) * p * u), x)
  {
    var g := 2 * (v + 2 * u * x) + 1;
    var d := 2 * (v + 2 * u * y) + 1;
    assert d == g + 4 * u * p * g by {
      assert u * y == u * x + u * (p * g);
      assert u * (p * g) == u * p * g;
    }
    assert p * d == p * g + p * (4 * u * p * g);
    Regrouped(x, p, u, v);
  }

  lemma Regrouped(x: int, p: int, u: int, v: int)
    ensures var g := 2 * (v + 2 * u * x) + 1;
      4 * u * p * g == 2 * (2 * ((2 * v + 1) * p * u) + 2 * (2 * (2 * p * u * u)) * x)
  {
    var g := 2 * (v + 2 * u * x) + 1;
    assert u * p * g == u * p * (2 * v + 1) + u * p * (4 * u * x);
    assert u * p * (4 * u * x) == 4 * (p * u * u) * x;
    assert u * p * (2 * v + 1) == (2 * v + 1) * p * u;
  }

  /** Moving m strides of 2^k steps adds 2^k times a number of m's parity. */
  lemma {:induction false} Strides(x: int, k: nat, m: nat) returns (t: int)
    ensures Affine(x, Times(m, Pow2(k))) == x + Times(t, Pow2(k)) && t % 2 == m % 2
    decreases m
  {
    t := 0;
    if m > 0 {
      var s := Strides(x, k, m - 1);
      t := OneStride(x, k, Times(m - 1, Pow2(k)), s);
      assert Times(m, Pow2(k)) == Times(m - 1, Pow2(k)) + Pow2(k);
    }
  }

  lemma OneStride(x: int, k: nat, n: nat, s: int) returns (t: int)
    requires Affine(x, n) == x + Times(s, Pow2(k))
    ensures Affine(x, n + Pow2(k)) == x + Times(t, Pow2(k)) && t % 2 != s % 2
  {
    var o := OddShift(Affine(x, n), k);
    AffineAdds(x, n, Pow2(k));
    t := s + o;
    TimesAdds(s, o, Pow2(k));
  }

  lemma OddShift(x: int, k: nat) returns (o: int)
    ensures Affine(x, Pow2(k)) == x + Times(o, Pow2(k)) && o % 2 == 1
  {
    o := Odd(Doubled(k), x);
    TimesIs(o, Pow2(k));
    assert Affine(x, Pow2(k)) == x + o * Pow2(k) by {
      DoublingStep(x, k);
      Commute(Pow2(k), o);
    }
  }

  /** q copies of d. Kept recursive, so that products stay out of the solver's sight except where TimesIs is called. */
  function Times(q: int, d: int): (z: int)
    ensures q >= 0 && d >= 0 ==> z >= 0
    decreases if q < 0 then -q else q
  {
    if q == 0 then 0 else if q > 0 then Times(q - 1, d) + d else Times(q + 1, d) - d
  }

  lemma {:induction false} TimesIs(q: int, d: int)
    ensures Times(q, d) == q * d
    decreases if q < 0 then -q else q
  {
    if q > 0 { TimesIs(q - 1, d); }
    if q < 0 { TimesIs(q + 1, d); }
  }

  lemma TimesAdds(s: int, o: int, d: int)
    ensures Times(s, d) + Times(o, d) == Times(s + o, d)
  {
    TimesIs(s, d);
    TimesIs(o, d);
    TimesIs(s + o, d);
    assert s * d + o * d == (s + o) * d;
  }

  // ---------- low bits ----------

  ghost predicate Divides(d: nat, z: int)
    requires d >= 1
  {
    exists q: int :: Times(q, d) == z
  }

  /** The low k bits return exactly every 2^k steps. */
  lemma {:induction false} LowBits(x: int, n: nat, k: nat)
    ensures Divides(Pow2(k), Affine(x, n) - x) <==> Divides(Pow2(k), n)
    decreases k
  {
    if k == 0 {
      OneDivides(n);
      OneDivides(Affine(x, n) - x);
    } else {
      LowBits(x, n, k - 1);
      var p, z := Pow2(k - 1), Affine(x, n) - x;
      if Divides(2 * p, z) { HalfDivides(p, z); }
      if Divides(2 * p, n) { HalfDivides(p, n); }
      if Divides(p, n) {
        var m: int :| Times(m, p) == n;
        TimesIs(m, p);
        ProductSign(m, p);
        var t := Strides(x, k - 1, m);
        DivideTwice(p, z, t);
        DivideTwice(p, n, m);
      }
    }
  }

  lemma OneDivides(z: int)
    ensures Divides(1, z)
  {
    TimesIs(z, 1);
  }

  lemma HalfDivides(p: nat, z: int)
    requires p >= 1 && Divides(2 * p, z)
    ensures Divides(p, z)
  {
    var q: int :| Times(q, 2 * p) == z;
    TimesTwice(q, p);
  }

  lemma DivideTwice(p: nat, z: int, t: int)
    requires p >= 1 && z == Times(t, p)
    ensures Divides(2 * p, z) <==> t % 2 == 0
  {
    if t % 2 == 0 {
      TimesTwice(t / 2, p);
    }
    if Divides(2 * p, z) {
      var q: int :| Times(q, 2 * p) == z;
      TimesTwice(q, p);
      TimesInjective(t, 2 * q, p);
    }
  }

  lemma TimesTwice(q: int, p: nat)
    ensures Times(q, 2 * p) == Times(2 * q, p)
  {
    TimesIs(q, 2 * p);
    TimesIs(2 * q, p);
    assert q * (2 * p) == (2 * q) * p;
  }

  lemma TimesInjective(s: int, t: int, p: nat)
    requires p >= 1 && Times(s, p) == Times(t, p)
    ensures s == t
  {
    TimesIs(s, p);
    TimesIs(t, p);
    ProductSign(s - t, p);
    assert (s - t) * p == s * p - t * p;
  }

  // ---------- the generator's period ----------

  lemma StatesIsPow2()
    ensures Pow2(48) == STATES
  {
    Pow2Adds(24, 24);
    assert Pow2(24) == 0x100_0000 by { Pow2Adds(12, 12); }
  }

  lemma {:induction false} Reduced(x: int, y: int, d: nat)
    requires d >= 1
    ensures x % d == y % d <==> Divides(d, x - y)
  {
    if x % d == y % d {
      TimesIs(x / d - y / d, d);
      assert (x / d - y / d) * d == x / d * d - y / d * d;
    }
    if Divides(d, x - y) {
      var q: int :| Times(q, d) == x - y;
      TimesIs(q, d);
      SameResidue(y, q, d);
    }
  }

  lemma SameResidue(y: int, q: int, d: nat)
    requires d >= 1
    ensures (y + q * d) % d == y % d
  {
    assert y + q * d == (y / d + q) * d + y % d;
    UniqueResidue(y + q * d, y / d + q, y % d, d);
  }

  lemma UniqueResidue(z: int, q: int, r: int, d: nat)
    requires 0 <= r < d && z == q * d + r
    ensures z % d == r
  {
    var k := z / d - q;
    assert k * d == r - z % d;
    ProductSign(k, d);
  }

  lemma ProductSign(k: int, d: nat)
    requires d >= 1
    ensures k >= 1 ==> k * d >= d
    ensures k <= -1 ==> k * d + d <= 0
  {
  }

  lemma {:induction false} IterateIsAffine(x: nat, n: nat)
    requires x < STATES
    ensures Iterate(x, n) == Affine(x, n) % STATES
  {
    if n > 0 {
      IterateIsAffine(x, n - 1);
      var z := Affine(x, n - 1);
      assert z == z % STATES + z / STATES * STATES;
      assert z * MULTIPLIER + INCREMENT == (z % STATES) * MULTIPLIER + INCREMENT + (z / STATES * MULTIPLIER) * STATES;
      SameResidue((z % STATES) * MULTIPLIER + INCREMENT, z / STATES * MULTIPLIER, STATES);
    }
  }

  lemma IterateLowBits(x: nat, n: nat, k: nat)
    requires x < STATES && k <= 48
    ensures Iterate(x, n) % Pow2(k) == Affine(x, n) % Pow2(k)
  {
    IterateIsAffine(x, n);
    StatesIsPow2();
    Pow2Adds(k, 48 - k);
    ResidueOfResidue(Affine(x, n), Pow2(k), Pow2(48 - k));
  }

  lemma AffinePeriod(x: int, m: nat, n: nat, k: nat)
    requires m <= n
    ensures Affine(x, m) % Pow2(k) == Affine(x, n) % Pow2(k) <==> m % Pow2(k) == n % Pow2(k)
  {
    var p, a, b := Pow2(k), Affine(x, m), Affine(x, n);
    assert Divides(p, b - a) <==> Divides(p, n - m) by {
      AffineAdds(x, m, n - m);
      LowBits(a, n - m, k);
    }
    Reduced(b, a, p);
    Reduced(n, m, p);
  }

  /** Two states of a run agree in their low k bits exactly when they are a multiple of 2^k steps apart. */
  lemma LowBitsPeriod(x: nat, m: nat, n: nat, k: nat)
    requires x < STATES && m <= n && k <= 48
    ensures Iterate(x, m) % Pow2(k) == Iterate(x, n) % Pow2(k) <==> m % Pow2(k) == n % Pow2(k)
  {
    IterateLowBits(x, m, k);
    IterateLowBits(x, n, k);
    AffinePeriod(x, m, n, k);
  }

  lemma ResidueOfResidue(z: int, p: nat, q: nat)
    requires p >= 1 && q >= 1
    ensures p * q >= 1 && z % (p * q) % p == z % p
  {
    var d := p * q;
    assert d >= 1;
    assert z == z % d + (z / d * q) * p;
    SameResidue(z % d, z / d * q, p);
  }

  /** From any state the 2^48 states that follow are all different, and then the cycle closes. */
  lemma FullPeriod(x: nat, m: nat, n: nat)
    requires x < STATES
    ensures Iterate(x, m) == Iterate(x, n) <==> m % STATES == n % STATES
  {
    StatesIsPow2();
    UniqueResidue(Iterate(x, m), 0, Iterate(x, m), STATES);
    UniqueResidue(Iterate(x, n), 0, Iterate(x, n), STATES);
    if m <= n {
      LowBitsPeriod(x, m, n, 48);
    } else {
      LowBitsPeriod(x, n, m, 48);
    }
  }

  /** Some step number below 2^k brings the low k bits to those of y. */
  lemma {:induction false} ReachLowBits(x: int, y: int, k: nat) returns (n: nat)
    ensures n < Pow2(k) && Divides(Pow2(k), Affine(x, n) - y)
    decreases k
  {
    if k == 0 {
      n := 0;
      OneDivides(x - y);
    } else {
      n := ReachLowBits(x, y, k - 1);
      n := SetNextBit(x, y, k - 1, n);
    }
  }

  lemma SetNextBit(x: int, y: int, k: nat, n: nat) returns (n': nat)
    requires Divides(Pow2(k), Affine(x, n) - y)
    ensures n' <= n + Pow2(k) && Divides(2 * Pow2(k), Affine(x, n') - y)
  {
    var q: int :| Times(q, Pow2(k)) == Affine(x, n) - y;
    var r := q;
    n' := n;
    if q % 2 != 0 {
      var o := OddShift(Affine(x, n), k);
      AffineAdds(x, n, Pow2(k));
      TimesAdds(q, o, Pow2(k));
      n', r := n + Pow2(k), q + o;
    }
    assert r % 2 == 0;
    var z := Affine(x, n') - y;
    DivideTwice(Pow2(k), z, r);
    assert Divides(2 * Pow2(k), z);
  }

  /** Every state is visited in every period. */
  lemma EveryStateReached(x: nat, y: nat) returns (n: nat)
    requires x < STATES && y < STATES
    ensures n < STATES && Iterate(x, n) == y
  {
    n := ReachLowBits(x, y, 48);
    StatesIsPow2();
    IterateIsAffine(x, n);
    Reduced(Affine(x, n), y, STATES);
  }

  /** rand() answers each number of [1, RAND_MAX] somewhere in every period, and never anything else. */
  lemma OutputRange(x: nat, r: int)
    requires x < STATES
    ensures (exists n: nat :: n < STATES && Output(Iterate(x, n)) == r) <==> 1 <= r <= RAND_MAX
  {
    if 1 <= r <= RAND_MAX {
      var n := EveryStateReached(x, (r - 1) * 4096);
      assert Output(Iterate(x, n)) == r;
    }
  }

  // ---------- the period of the answers ----------

  /** Half a period away, a state has its top bit flipped, which shows in the answer. */
  lemma TopBitShows(x: nat)
    requires x < STATES
    ensures Output(x) != Output((x + STATES / 2) % STATES)
  {
  }

  lemma {:induction false} AnswersRepeat(x: nat, p: nat, m: nat)
    requires forall n: nat :: Output(Iterate(x, n)) == Output(Iterate(x, n + p))
    ensures Output(Iterate(x, Times(m, p))) == Output(x)
  {
    if m > 0 {
      AnswersRepeat(x, p, m - 1);
      assert Times(m, p) == Times(m - 1, p) + p;
    } else {
      assert Times(m, p) == 0;
    }
  }

  /** Every positive number below 2^k is 2^j times an odd number, j < k. */
  lemma {:induction false} OddPart(p: nat, k: nat) returns (j: nat, q: nat)
    requires 1 <= p < Pow2(k)
    ensures j < k && p == Pow2(j) * q && q % 2 == 1
    decreases k
  {
    if p % 2 == 1 {
      j, q := 0, p;
    } else {
      j, q := OddPart(p / 2, k - 1);
      j := j + 1;
      assert p == 2 * (Pow2(j - 1) * q) == Pow2(j) * q;
    }
  }

  /** The answers have no period shorter than 2^48 either. */
  lemma AnswersHaveFullPeriod(x: nat, p: nat)
    requires x < STATES && 1 <= p < STATES
    ensures exists n: nat :: Output(Iterate(x, n)) != Output(Iterate(x, n + p))
  {
    if forall n: nat :: Output(Iterate(x, n)) == Output(Iterate(x, n + p)) {
      HalfPeriodRepeats(x, p);
      TopBitShows(x);
    }
  }

  lemma HalfPeriodRepeats(x: nat, p: nat)
    requires x < STATES && 1 <= p < STATES
    requires forall n: nat :: Output(Iterate(x, n)) == Output(Iterate(x, n + p))
    ensures Output((x + STATES / 2) % STATES) == Output(x)
  {
    StatesIsPow2();
    var j, q := OddPart(p, 48);
    AnswersRepeat(x, p, Pow2(47 - j));
    Pow2Adds(47 - j, j);
    Reassociate(Pow2(47 - j), Pow2(j), q);
    HalfPeriod(x, q);
  }

  lemma Commute(a: int, b: int)
    ensures a * b == b * a
  {
  }

  lemma {:induction false} Associate(a: nat, b: int, c: int)
    ensures a * (b * c) == (a * b) * c
  {
    if a > 0 { Associate(a - 1, b, c); }
  }

  lemma Reassociate(a: nat, b: nat, q: nat)
    ensures Times(a, b * q) == Times(q, a * b)
  {
    TimesIs(a, b * q);
    TimesIs(q, a * b);
    Associate(a, b, q);
    Commute(q, a * b);
  }

  lemma HalfPeriod(x: nat, q: nat)
    requires x < STATES && q % 2 == 1
    ensures Iterate(x, Times(q, Pow2(47))) == (x + STATES / 2) % STATES
  {
    var t := Strides(x, 47, q);
    StatesIsPow2();
    IterateIsAffine(x, Times(q, Pow2(47)));
    assert Pow2(47) == STATES / 2;
    TimesIs(t, STATES / 2);
    SameResidue(x + STATES / 2, t / 2, STATES);
  }
}
