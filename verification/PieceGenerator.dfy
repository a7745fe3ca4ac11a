/** The seeded piece generator of the Tetris page (apps/tetris-web/web/tetris.html):
    a 32-bit linear congruential generator, the draw of a piece index from it and
    the hash that turns a room name into its seed. */
module PieceGenerator {

  const MODULUS: int := 0x1_0000_0000
  const MULTIPLIER: int := 1664525
  const INCREMENT: int := 1013904223

  /** A state of the generator: an unsigned 32-bit number. */
  type Word = w: int | 0 <= w < MODULUS

  /** JavaScript's ToInt32: the signed value of the low 32 bits. */
  function ToInt32(n: int): int {
    var low := n % MODULUS;
    if low < 0x8000_0000 then low else low - MODULUS
  }

  /** Math.imul: the signed low 32 bits of a product. */
  function Imul(a: int, b: int): int {
    ToInt32(a * b)
  }

  /** n >>> 0 */
  function ToUint32(n: int): Word {
    n % MODULUS
  }

  /** One step of nextRand: the product is signed, the sum is taken modulo 2^32. */
  function NextRand(state: Word): Word {
    ToUint32(Imul(state, MULTIPLIER) + INCREMENT)
  }

  /** Math.floor(nextRand() * 7): the drawn index for a state already advanced. */
  function PieceIndex(state: Word): (index: int)
    ensures 0 <= index < 7
    ensures index * 0x1_0000_0000 <= 7 * state < (index + 1) * 0x1_0000_0000
  {
    state * 7 / MODULUS
  }

  /** The state after n draws. */
  function Draws(n: nat, state: Word): Word {
    if n == 0 then state else NextRand(Draws(n - 1, state))
  }

  lemma {:induction false} DrawsCompose(m: nat, n: nat, state: Word)
    ensures Draws(m + n, state) == Draws(m, Draws(n, state))
  {
    if m != 0 {
      DrawsCompose(m - 1, n, state);
    }
  }

  // ---------------------------------------------------------------------------
  // The generator without the modulus
  // ---------------------------------------------------------------------------

  /** n steps of x -> MULTIPLIER * x + INCREMENT over the unbounded integers. */
  function Affine(n: nat, x: int): int {
    if n == 0 then x else MULTIPLIER * Affine(n - 1, x) + INCREMENT
  }

  lemma ModOfStep(x: int, y: Word)
    requires y == x % MODULUS
    ensures NextRand(y) == (MULTIPLIER * x + INCREMENT) % MODULUS
  {
    var q := x / MODULUS;
    assert x == MODULUS * q + y;
    var product := y * MULTIPLIER;
    var signed := ToInt32(product);
    var k := (product - signed) / MODULUS;
    assert product == signed + MODULUS * k;
    ModShift(signed + INCREMENT, k + MULTIPLIER * q);
    assert MULTIPLIER * x + INCREMENT == signed + INCREMENT + MODULUS * (k + MULTIPLIER * q);
  }

  /** Signed multiplication and unsigned shift together are the plain recurrence. */
  lemma NextRandIsLinear(state: Word)
    ensures NextRand(state) == (1664525 * state + 1013904223) % 0x1_0000_0000
  {
    ModOfStep(state, state);
  }

  lemma ModShift(x: int, k: int)
    ensures (x + MODULUS * k) % MODULUS == x % MODULUS
  {
    var a, b := x / MODULUS, (x + MODULUS * k) / MODULUS;
    assert x == MODULUS * a + x % MODULUS;
    assert x + MODULUS * k == MODULUS * b + (x + MODULUS * k) % MODULUS;
  }

  lemma {:induction false} DrawsAreAffine(n: nat, state: Word)
    ensures Draws(n, state) == Affine(n, state) % MODULUS
  {
    if n != 0 {
      DrawsAreAffine(n - 1, state);
      ModOfStep(Affine(n - 1, state), Draws(n - 1, state));
    }
  }

  lemma {:induction false} AffineComposes(m: nat, n: nat, x: int)
    ensures Affine(m + n, x) == Affine(m, Affine(n, x))
  {
    if m != 0 {
      AffineComposes(m - 1, n, x);
    }
  }

  // ---------------------------------------------------------------------------
  // 2^k steps at once: x -> x + 2^k * (Odd(k) + 4 * Slope(k) * x)
  // ---------------------------------------------------------------------------

  function Pow2(k: nat): (p: nat)
    ensures p >= 1
  {
    if k == 0 then 1 else 2 * Pow2(k - 1)
  }

  /** The 2^k-fold step multiplies by 1 + 4 * 2^k * Slope(k). */
  function Slope(k: nat): int {
    if k == 0 then (MULTIPLIER - 1) / 4
    else Slope(k - 1) + 2 * Pow2(k - 1) * (Slope(k - 1) * Slope(k - 1))
  }

  /** The 2^k-fold step adds 2^k * Odd(k). */
  function Odd(k: nat): int {
    if k == 0 then INCREMENT
    else Odd(k - 1) * (1 + 2 * Pow2(k - 1) * Slope(k - 1))
  }

  lemma OddTimesOdd(a: int, b: int)
    requires a % 2 == 1 && b % 2 == 1
    ensures (a * b) % 2 == 1
  {
    var i, j := a / 2, b / 2;
    assert a * b == 2 * (2 * (i * j) + i + j) + 1 by {
      assert a == 2 * i + 1 && b == 2 * j + 1;
    }
  }

  lemma TwiceIsEven(c: int)
    ensures (2 * c) % 2 == 0
  {
  }

  lemma EvenTimes(a: int, b: int)
    ensures (2 * a * b) % 2 == 0
  {
    var c := a * b;
    assert 2 * a * b == 2 * c;
    TwiceIsEven(c);
  }

  lemma OddFactor(c: int, p: int, a: int)
    requires c % 2 == 1
    ensures (c * (1 + 2 * p * a)) % 2 == 1
  {
    EvenTimes(p, a);
    OddTimesOdd(c, 1 + 2 * p * a);
  }

  lemma {:induction false} OddIsOdd(k: nat)
    ensures Odd(k) % 2 == 1
  {
    hide Pow2, Slope;
    if k != 0 {
      OddIsOdd(k - 1);
      OddFactor(Odd(k - 1), Pow2(k - 1), Slope(k - 1));
    }
  }

  lemma Distribute(a: int, b: int, c: int)
    ensures a * (b + c) == a * b + a * c
  {
  }

  lemma Regroup(a: int, b: int, c: int)
    ensures a * (b * c) == (a * b) * c == b * (a * c)
  {
  }

  /** The slope and offset of two steps, gathered: with e = p * a and t = c + 4ax they give t + 2et. */
  lemma GatherTerms(p: int, a: int, c: int, x: int)
    ensures c * (1 + 2 * p * a) + 4 * (a + 2 * p * (a * a)) * x
            == (c + 4 * a * x) + 2 * (p * a * (c + 4 * a * x))
  {
    var e, z := p * a, a * x;
    assert c * (1 + 2 * p * a) == c + 2 * (e * c);
    assert (a + 2 * p * (a * a)) * x == z + 2 * (e * z) by {
      Regroup(p, a, a);
      Regroup(e, a, x);
      Distribute(x, a, 2 * (e * a));
    }
    Distribute(e, c, 4 * z);
    assert e * (4 * z) == 4 * (e * z);
  }

  /** One doubling: two steps of x -> (1 + 4pA)x + pC are one step with 2p. */
  lemma Doubling(p: int, a: int, c: int, x: int)
    ensures var y := x + p * (c + 4 * a * x);
            y + p * (c + 4 * a * y) == x + 2 * p * (c * (1 + 2 * p * a) + 4 * (a + 2 * p * (a * a)) * x)
  {
    var t := c + 4 * a * x;
    var y := x + p * t;
    var w := a * (p * t);
    GatherTerms(p, a, c, x);
    Regroup(a, p, t);
    assert c + 4 * a * y == t + 4 * w by { Distribute(a, x, p * t); }
    Distribute(p, t, 4 * w);
    Distribute(p, t, 2 * w);
  }

  lemma {:induction false} PowerOfTwoSteps(k: nat, x: int)
    ensures Affine(Pow2(k), x) == x + Pow2(k) * (Odd(k) + 4 * Slope(k) * x)
  {
    if k == 0 {
      assert Affine(1, x) == MULTIPLIER * Affine(0, x) + INCREMENT;
    } else {
      hide Affine;
      var p := Pow2(k - 1);
      AffineComposes(p, p, x);
      PowerOfTwoSteps(k - 1, x);
      PowerOfTwoSteps(k - 1, Affine(p, x));
      Doubling(p, Slope(k - 1), Odd(k - 1), x);
    }
  }

  lemma OneMoreBlock(p: int, a: int, c: int, x: int, s: int) returns (t: int)
    requires c % 2 == 1
    ensures t % 2 == (s + 1) % 2
    ensures var y := x + p * s; y + p * (c + 4 * a * y) == x + p * t
  {
    var y := x + p * s;
    var u := c + 4 * a * y;
    t := s + u;
    assert 4 * a * y == 2 * (2 * (a * y));
    assert p * t == p * s + p * u;
  }

  lemma OneBlock(k: nat, n: nat, x: int, s: int) returns (t: int)
    requires Affine(n, x) == x + Pow2(k) * s
    ensures Affine(Pow2(k) + n, x) == x + Pow2(k) * t
    ensures t % 2 == (s + 1) % 2
  {
    AffineComposes(Pow2(k), n, x);
    PowerOfTwoSteps(k, x + Pow2(k) * s);
    OddIsOdd(k);
    t := OneMoreBlock(Pow2(k), Slope(k), Odd(k), x, s);
  }

  lemma OneFewer(q: nat, p: nat) returns (rest: nat)
    requires q > 0
    ensures rest == (q - 1) * p && q * p == p + rest
  {
    rest := (q - 1) * p;
  }

  /** After q * 2^k steps the value has moved by 2^k times a number of q's parity. */
  lemma {:induction false} MultipleSteps(k: nat, q: nat, n: nat, x: int) returns (t: int)
    requires n == q * Pow2(k)
    ensures Affine(n, x) == x + Pow2(k) * t
    ensures t % 2 == q % 2
  {
    hide Affine, Pow2;
    if q == 0 {
      t := 0;
      assert Affine(0, x) == x by { NoSteps(x); }
    } else {
      var rest := OneFewer(q, Pow2(k));
      var s := MultipleSteps(k, q - 1, rest, x);
      t := OneBlock(k, rest, x, s);
      SameParityNext(s, t, q);
    }
  }

  lemma NoSteps(x: int)
    ensures Affine(0, x) == x
  {
  }

  lemma SameParityNext(s: int, t: int, q: nat)
    requires q > 0 && s % 2 == (q - 1) % 2 && t % 2 == (s + 1) % 2
    ensures t % 2 == q % 2
  {
  }

  /** Every positive number is an odd multiple of a power of two. */
  lemma {:induction false} OddPart(n: nat) returns (k: nat, q: nat)
    requires n > 0
    ensures n == q * Pow2(k) && q % 2 == 1
  {
    if n % 2 == 1 {
      k, q := 0, n;
    } else {
      k, q := OddPart(n / 2);
      k := k + 1;
      assert n == 2 * (q * Pow2(k - 1)) == q * (2 * Pow2(k - 1));
    }
  }

  lemma {:induction false} Pow2Adds(i: nat, j: nat)
    ensures Pow2(i + j) == Pow2(i) * Pow2(j)
  {
    if i != 0 {
      Pow2Adds(i - 1, j);
      assert 2 * (Pow2(i - 1) * Pow2(j)) == (2 * Pow2(i - 1)) * Pow2(j);
    }
  }

  lemma Pow2Of32()
    ensures Pow2(32) == MODULUS
  {
    assert Pow2(4) == 16;
    Pow2Adds(4, 4);
    Pow2Adds(8, 8);
    Pow2Adds(16, 16);
  }

  lemma CancelFactor(p: nat, a: int, b: int)
    requires p > 0 && p * a == p * b
    ensures a == b
  {
    assert p * (a - b) == 0;
  }

  lemma MoveByLargePower(r: int, t: int, x: Word)
    ensures (x + MODULUS * r * t) % MODULUS == x
  {
    ModShift(x, r * t);
    assert MODULUS * r * t == MODULUS * (r * t);
  }

  lemma MoveBySmallPower(p: nat, h: int, t: int, x: Word)
    requires p * (2 * h) == MODULUS && t % 2 == 1
    ensures (x + p * t) % MODULUS != x
  {
    if (x + p * t) % MODULUS == x {
      var z := (x + p * t) / MODULUS;
      assert p * t == MODULUS * z;
      assert (p * (2 * h)) * z == p * (2 * (h * z));
      CancelFactor(p, t, 2 * (h * z));
      assert false;
    }
  }

  /** Moving by an odd multiple of 2^k changes the residue modulo 2^32 exactly when k < 32. */
  lemma MoveByPower(k: nat, t: int, x: Word)
    requires t % 2 == 1
    ensures (x + Pow2(k) * t) % MODULUS == x <==> k >= 32
  {
    Pow2Of32();
    if k >= 32 {
      Pow2Adds(32, k - 32);
      MoveByLargePower(Pow2(k - 32), t, x);
    } else {
      Pow2Adds(k, 32 - k);
      MoveBySmallPower(Pow2(k), Pow2(31 - k), t, x);
    }
  }

  /** Main result: the state comes back to where it was after n draws exactly when
      2^32 divides n, whatever the state. The first repeat is thus at 2^32 draws. */
  lemma FullPeriod(n: nat, state: Word)
    ensures Draws(n, state) == state <==> n % MODULUS == 0
  {
    if n != 0 {
      var k, q := OddPart(n);
      var t := MultipleSteps(k, q, n, state);
      DrawsAreAffine(n, state);
      MoveByPower(k, t, state);
      MoveByPower(k, q, 0);
      assert n == 0 + Pow2(k) * q;
    }
  }

  lemma SmallRemainder(n: int)
    requires 0 < n < MODULUS
    ensures n % MODULUS != 0
  {
  }

  /** Hence the first 2^32 states drawn are pairwise different: every state is met once per period. */
  lemma NoEarlyRepeat(i: nat, j: nat, state: Word)
    requires i < j < i + MODULUS
    ensures Draws(i, state) != Draws(j, state)
  {
    var later := Draws(i, state);
    DrawsCompose(j - i, i, state);
    FullPeriod(j - i, later);
    SmallRemainder(j - i);
  }

  // ---------------------------------------------------------------------------
  // Seeds
  // ---------------------------------------------------------------------------

  const FNV_OFFSET: bv32 := 2166136261

  /** h ^= unit; h = Math.imul(h, 16777619) */
  function FnvStep(h: bv32, unit: bv16): bv32 {
    (h ^ (unit as bv32)) * 16777619
  }

  /** The 32-bit FNV-1a hash of a text given by its UTF-16 code units. */
  function FnvHash(text: seq<bv16>): bv32 {
    if text == [] then FNV_OFFSET
    else FnvStep(FnvHash(text[..|text| - 1]), text[|text| - 1])
  }

  /** (h >>> 0) || 1 */
  function SeedOfHash(hash: bv32): (seed: Word)
    ensures seed != 0 && (seed as bv32 == hash || (hash == 0 && seed == 1))
  {
    if hash == 0 then 1 else hash as int
  }

  /** The seed for a text: its hash, or 1 where the hash is 0. */
  function SeedOf(text: seq<bv16>): Word {
    SeedOfHash(FnvHash(text))
  }

  /** Two published values of the hash: of "a" and of "foobar". */
  lemma FnvVectors()
    ensures FnvHash([97]) == 0xE40C292C
    ensures FnvHash([102, 111, 111, 98, 97, 114]) == 0xBF9CF968
  {
    var t: seq<bv16> := [102, 111, 111, 98, 97, 114];
    assert [97 as bv16][..0] == [];
    assert t[..1] == [102] && t[..1][..0] == [];
    assert t[..2][..1] == t[..1] && t[..3][..2] == t[..2] && t[..4][..3] == t[..3];
    assert t[..5][..4] == t[..4] && t[..6][..5] == t[..5] && t[..6] == t;
    assert FnvHash(t[..2]) == FnvStep(FnvHash(t[..1]), 111);
    assert FnvHash(t[..3]) == FnvStep(FnvHash(t[..2]), 111);
    assert FnvHash(t[..4]) == FnvStep(FnvHash(t[..3]), 98);
    assert FnvHash(t[..5]) == FnvStep(FnvHash(t[..4]), 97);
  }

  method Fnv1a32(text: seq<bv16>) returns (seed: Word)
    ensures seed == SeedOf(text) != 0
  {
    var h := FNV_OFFSET;
    for i := 0 to |text|
      invariant h == FnvHash(text[..i])
    {
      h := FnvStep(h, text[i]);
      assert text[..i + 1][..i] == text[..i];
    }
    assert text[..|text|] == text;
    seed := SeedOfHash(h);
  }
}
