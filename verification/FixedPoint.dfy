/**
 The fixed-point kernel of ios/mediastreamer2.framework/Headers/dsptools.h, as built with
 MS_FIXED_POINT.  Words are integers with an explicit range; a cast to a 16-bit word wraps;
 a 32-bit sum that leaves its range is undefined in C and is None here; `>>` is the
 arithmetic shift, and `&` works bit by bit on the two's complement representation.
 */
module FixedPoint {
  import opened Wrappers

  function Pow2(n: nat): (p: int)
    ensures p > 0
  {
    if n == 0 then 1 else 2 * Pow2(n - 1)
  }

  predicate In16(x: int) {
    -0x8000 <= x < 0x8000
  }

  predicate In32(x: int) {
    -0x8000_0000 <= x < 0x8000_0000
  }

  /** The cast `(ms_word16_t)`. */
  function Word16(x: int): int {
    (x + 0x8000) % 0x1_0000 - 0x8000
  }

  /** How many times that cast wraps around. */
  function Wraps(x: int): int {
    (x + 0x8000) / 0x1_0000
  }

  function Shr(a: int, shift: nat): int {
    a / Pow2(shift)
  }

  /** Bitwise and of a two's complement integer with a non-negative mask. */
  function And(x: int, mask: nat): nat
    decreases mask
  {
    if mask == 0 then 0 else (x % 2) * (mask % 2) + 2 * And(x / 2, mask / 2)
  }

  function Add32(a: int, b: int): Option<int> {
    if In32(a + b) then Some(a + b) else None
  }

  function Mult16_16(a: int, b: int): int {
    Word16(a) * Word16(b)
  }

  /** The scales the kernel has a split multiply for, with the masks it writes out. */
  type QScale = q: nat | 11 <= q <= 15 witness 11

  function LowMask(q: QScale): nat {
    match q
    case 11 => 0x07ff
    case 12 => 0x0fff
    case 13 => 0x1fff
    case 14 => 0x3fff
    case _  => 0x7fff
  }

  /** MULT16_32_Q11 to MULT16_32_Q15: the high and the low part are multiplied separately. */
  function Mult16_32_Q(q: QScale, a: int, b: int): Option<int> {
    Add32(Mult16_16(a, Shr(b, q)), Shr(Mult16_16(a, And(b, LowMask(q))), q))
  }

  /** PSHR32, PSHR and, as C computes it in `int`, PSHR16: the half is added in 32 bits, then the sum is shifted. */
  function Pshr32(a: int, shift: nat): Option<int> {
    var sum :- Add32(a, Shr(Pow2(shift), 1));
    Some(Shr(sum, shift))
  }

  /** MULT16_32_P15: only the low half is rounded. */
  function Mult16_32_P15(a: int, b: int): Option<int> {
    AddRounded(Mult16_16(a, Shr(b, 15)), Mult16_16(a, And(b, 0x7fff)))
  }

  function AddRounded(high: int, low: int): Option<int> {
    var rounded :- Pshr32(low, 15);
    Add32(high, rounded)
  }

  function Mul_16_32_R15(a: int, bh: int, bl: int): Option<int> {
    Add32(Mult16_16(a, bh), Shr(Mult16_16(a, bl), 15))
  }

  /** MULT16_16_Q11_32, MULT16_16_Q13, MULT16_16_Q14 and MULT16_16_Q15. */
  function Mult16_16_Q(q: QScale, a: int, b: int): int {
    Shr(Mult16_16(a, b), q)
  }

  /** MULT16_16_P13, MULT16_16_P14 and MULT16_16_P15, which add 4096, 8192 and 16384. */
  function Mult16_16_P(q: QScale, a: int, b: int): Option<int> {
    var sum :- Add32(Pow2(q - 1), Mult16_16(a, b));
    Some(Shr(sum, q))
  }

  /** C's integer division truncates toward zero. */
  function CDiv(a: int, b: int): int
    requires b != 0
  {
    if a >= 0 then a / b else -((-a) / b)
  }

  /** The division itself, undefined by zero and when the quotient leaves 32 bits. */
  function Div32(a: int, b: int): Option<int> {
    if b != 0 && In32(CDiv(a, b)) then Some(CDiv(a, b)) else None
  }

  /** PDIV32; note that the half is taken of a 16-bit cast of the divisor. */
  function PDiv32(a: int, b: int): Option<int> {
    var sum :- Add32(a, Shr(Word16(b), 1));
    Div32(sum, b)
  }

  /** PDIV32_16, which casts the divisor everywhere and the quotient as well. */
  function PDiv32_16(a: int, b: int): Option<int> {
    var q :- PDiv32(a, Word16(b));
    Some(Word16(q))
  }

  // ---- arithmetic ----------------------------------------------------------------

  lemma ZeroProduct(x: int, y: int)
    ensures x * y == 0 <==> x == 0 || y == 0
  {
  }

  lemma DivMod(n: int, d: int)
    requires d > 0
    ensures n == d * (n / d) + n % d && 0 <= n % d < d
  {
  }

  lemma MulMono(d: int, x: int, y: int)
    ensures d >= 0 && x <= y ==> d * x <= d * y
  {
  }

  /** The quotient is the only number with this property. */
  lemma QuotientUnique(n: int, d: int, r: int)
    requires d > 0 && d * r <= n < d * r + d
    ensures n / d == r
  {
    DivMod(n, d);
    var k := n / d - r;
    assert d * (n / d) - d * r == d * k;
    MulMono(d, 1, k);
    MulMono(d, k, -1);
  }

  lemma ShiftOutMultiple(d: int, x: int, y: int)
    requires d > 0
    ensures (d * x + y) / d == x + y / d
  {
    DivMod(y, d);
    assert d * (x + y / d) == d * x + d * (y / d);
    QuotientUnique(d * x + y, d, x + y / d);
  }

  lemma {:induction false} Pow2Add(m: nat, n: nat)
    ensures Pow2(m + n) == Pow2(m) * Pow2(n)
  {
    if m > 0 {
      Pow2Add(m - 1, n);
      assert Pow2(m + n) == 2 * (Pow2(m - 1) * Pow2(n));
      assert 2 * (Pow2(m - 1) * Pow2(n)) == (2 * Pow2(m - 1)) * Pow2(n);
    }
  }

  lemma {:induction false} Pow2Monotone(m: nat, n: nat)
    requires m <= n
    ensures Pow2(m) <= Pow2(n)
    decreases n
  {
    if m < n { Pow2Monotone(m, n - 1); }
  }

  lemma Pow2Doubles(n: nat)
    requires n > 0
    ensures Pow2(n) == 2 * Pow2(n - 1)
  {
  }

  lemma Pow2Values()
    ensures Pow2(10) == 1024 && Pow2(11) == 2048 && Pow2(12) == 4096 && Pow2(13) == 8192
    ensures Pow2(14) == 16384 && Pow2(15) == 32768 && Pow2(16) == 65536
  {
    assert Pow2(5) == 32;
    Pow2Add(5, 5);
    Pow2Add(5, 10);
  }

  lemma WordFacts(x: int)
    ensures In16(Word16(x)) && x == Word16(x) + 0x1_0000 * Wraps(x)
    ensures In16(x) <==> Wraps(x) == 0
    ensures In16(x) <==> Word16(x) == x
  {
  }

  /** A mask of k low ones keeps the remainder modulo 2^k. */
  lemma {:induction false} LowOnesKeepRemainder(x: int, k: nat)
    ensures And(x, Pow2(k) - 1) == x % Pow2(k)
    decreases k
  {
    if k > 0 {
      var m := Pow2(k - 1);
      LowOnesKeepRemainder(x / 2, k - 1);
      assert (2 * m - 1) % 2 == 1 && (2 * m - 1) / 2 == m - 1;
      RemainderOfDouble(x, m);
    }
  }

  /** The lowest bit stays, and the bits above it are reduced on their own. */
  lemma RemainderOfDouble(x: int, m: int)
    requires m > 0
    ensures x % (2 * m) == x % 2 + 2 * ((x / 2) % m)
  {
    var h, l := (x / 2) / m, (x / 2) % m;
    DivMod(x / 2, m);
    assert x == 2 * (m * h + l) + x % 2;
    assert 2 * (m * h) == (2 * m) * h;
    QuotientUnique(x, 2 * m, h);
    DivMod(x, 2 * m);
  }

  lemma MaskIsRemainder(q: QScale, b: int)
    ensures LowMask(q) == Pow2(q) - 1
    ensures And(b, LowMask(q)) == b % Pow2(q)
  {
    Pow2Values();
    LowOnesKeepRemainder(b, q);
  }

  lemma ProductBound(a: int, b: int)
    requires In16(a) && In16(b)
    ensures -0x4000_0000 <= a * b <= 0x4000_0000
  {
    MulMono(b, a, 0x8000);
    MulMono(b, -0x8000, a);
    MulMono(-b, a, 0x8000);
    MulMono(-b, -0x8000, a);
    assert b * a == a * b && -b * a == -(a * b);
  }

  // ---- the split multiply --------------------------------------------------------

  lemma Distribute(a: int, d: int, h: int, l: int)
    ensures a * (d * h + l) == d * (a * h) + a * l
  {
    assert a * (d * h) == d * (a * h);
  }

  /** The product of the high part and that of the low part make up the whole product. */
  lemma Recombine(d: int, a: int, b: int)
    requires d > 0
    ensures a * b == d * (a * (b / d)) + a * (b % d)
    ensures a * b / d == a * (b / d) + a * (b % d) / d
  {
    DivMod(b, d);
    Distribute(a, d, b / d, b % d);
    ShiftOutMultiple(d, a * (b / d), a * (b % d));
  }

  /** The high product loses whole multiples of 2^16 * a to the cast; the low one is exact. */
  lemma HalfProducts(q: QScale, a: int, b: int)
    requires In16(a)
    ensures Mult16_16(a, Shr(b, q)) == a * Shr(b, q) - 0x1_0000 * (a * Wraps(Shr(b, q)))
    ensures -0x4000_0000 <= Mult16_16(a, Shr(b, q)) <= 0x4000_0000
    ensures Mult16_16(a, And(b, LowMask(q))) == a * (b % Pow2(q))
    ensures -0x8000 * Pow2(q) <= a * (b % Pow2(q)) <= 0x8000 * Pow2(q)
    ensures -0x8000 <= a * (b % Pow2(q)) / Pow2(q) <= 0x8000
  {
    var d, h := Pow2(q), Shr(b, q);
    Pow2Values();
    MaskIsRemainder(q, b);
    DivMod(b, d);
    WordFacts(a);
    WordFacts(h);
    WordFacts(b % d);
    ProductBound(a, Word16(h));
    LowHalfBound(a, b % d, d);
    Distribute(a, 0x1_0000, Wraps(h), Word16(h));
  }

  lemma LowHalfBound(a: int, l: int, d: int)
    requires In16(a) && 0 <= l < d
    ensures -0x8000 <= a * l / d <= 0x8000
    ensures -0x8000 * d <= a * l <= 0x8000 * d
  {
    MulMono(l, a, 0x8000);
    MulMono(l, -0x8000, a);
    assert l * a == a * l;
    DivMod(a * l, d);
    MulMono(d, 0x8001, a * l / d);
    MulMono(d, a * l / d, -0x8001);
  }

  /** What the split multiply computes, for every 16-bit a and every 32-bit b: it never overflows. */
  lemma SplitProduct(q: QScale, a: int, b: int)
    requires In16(a) && In32(b)
    ensures Mult16_32_Q(q, a, b) == Some(a * b / Pow2(q) - 0x1_0000 * (a * Wraps(Shr(b, q))))
  {
    hide Pow2, Mult16_16, And, LowMask, Wraps;
    HalfProducts(q, a, b);
    Recombine(Pow2(q), a, b);
  }

  lemma RangeOfHigh(q: QScale, b: int)
    ensures In16(Shr(b, q)) <==> -Pow2(15 + q) <= b < Pow2(15 + q)
  {
    var d := Pow2(q);
    Pow2Values();
    Pow2Add(15, q);
    DivMod(b, d);
    var h := b / d;
    MulMono(d, h, -0x8001);
    MulMono(d, 0x8000, h);
    MulMono(d, -0x8000, h);
    MulMono(d, h, 0x7fff);
  }

  /** The split multiply is the full product shifted down exactly on this range of b. */
  lemma SplitProductExact(q: QScale, a: int, b: int)
    requires In16(a) && In32(b)
    ensures Mult16_32_Q(q, a, b) == Some(a * b / Pow2(q))
       <==> (a == 0 || -Pow2(15 + q) <= b < Pow2(15 + q))
  {
    SplitProduct(q, a, b);
    RangeOfHigh(q, b);
    WordFacts(Shr(b, q));
    ZeroProduct(a, Wraps(Shr(b, q)));
  }

  /** A caller that passes a high word and 15 low bits always gets the product of the number they make up. */
  lemma PresplitProduct(a: int, bh: int, bl: int)
    requires In16(a) && In16(bh) && 0 <= bl < 0x8000
    ensures Mul_16_32_R15(a, bh, bl) == Some(a * (0x8000 * bh + bl) / 0x8000)
  {
    hide Word16, Pow2;
    Pow2Values();
    WordFacts(a);
    WordFacts(bh);
    WordFacts(bl);
    ProductBound(a, bh);
    LowHalfBound(a, bl, 0x8000);
    JoinHalves(a, bh, bl);
  }

  lemma JoinHalves(a: int, bh: int, bl: int)
    ensures a * (0x8000 * bh + bl) / 0x8000 == a * bh + a * bl / 0x8000
  {
    Distribute(a, 0x8000, bh, bl);
    ShiftOutMultiple(0x8000, a * bh, a * bl);
  }

  /** Cutting b into its halves, the macro yields the shifted product exactly on the kernel's range of b. */
  lemma PresplitAgrees(a: int, b: int)
    requires In16(a) && In32(b)
    ensures Mul_16_32_R15(a, Shr(b, 15), And(b, 0x7fff)) == Some(a * b / 0x8000)
       <==> (a == 0 || -0x4000_0000 <= b < 0x4000_0000)
  {
    hide Pow2, And, Mult16_16, Mult16_32_Q, Mul_16_32_R15;
    Pow2Values();
    Pow2Add(15, 15);
    PresplitIsSplit(a, b);
    SplitProductExact(15, a, b);
  }

  lemma PresplitIsSplit(a: int, b: int)
    ensures Mul_16_32_R15(a, Shr(b, 15), And(b, 0x7fff)) == Mult16_32_Q(15, a, b)
  {
    hide Pow2, And, Mult16_16;
  }

  // ---- rounding -------------------------------------------------------------------

  /** r is the integer nearest to n/d; of two equally near ones, the upper. */
  ghost predicate Nearest(r: int, n: int, d: int) {
    forall m: int :: Distance(n, d, r) <= Distance(n, d, m)
      && (Distance(n, d, r) == Distance(n, d, m) ==> m <= r)
  }

  function Distance(n: int, d: int, m: int): nat {
    if n >= d * m then n - d * m else d * m - n
  }

  lemma DistanceOfNeighbour(n: int, d: int, r: int, k: int)
    ensures d * (r + k) == d * r + d * k
  {
  }

  /** The window that characterises the nearest integer. */
  lemma NearestWindow(r: int, n: int, d: int)
    requires d > 0
    ensures Nearest(r, n, d) <==> -d <= 2 * (n - d * r) < d
  {
    if Nearest(r, n, d) {
      DistanceOfNeighbour(n, d, r, 1);
      DistanceOfNeighbour(n, d, r, -1);
      assert Distance(n, d, r) <= Distance(n, d, r + 1);
      assert Distance(n, d, r) <= Distance(n, d, r - 1);
    }
    if -d <= 2 * (n - d * r) < d {
      forall m: int
        ensures Distance(n, d, r) <= Distance(n, d, m)
          && (Distance(n, d, r) == Distance(n, d, m) ==> m <= r)
      {
        DistanceOfNeighbour(n, d, r, m - r);
        MulMono(d, 1, m - r);
        MulMono(d, m - r, -1);
      }
    }
  }

  /** Adding half of an even divisor before flooring rounds to nearest. */
  lemma HalfThenFloor(n: int, h: int)
    requires h > 0
    ensures Nearest((n + h) / (2 * h), n, 2 * h)
  {
    DivMod(n + h, 2 * h);
    NearestWindow((n + h) / (2 * h), n, 2 * h);
  }

  lemma NearestUnique(r: int, s: int, n: int, d: int)
    requires Nearest(r, n, d) && Nearest(s, n, d)
    ensures r == s
  {
    assert Distance(n, d, r) <= Distance(n, d, s);
    assert Distance(n, d, s) <= Distance(n, d, r);
  }

  /** PSHR32 rounds to nearest for every shift from 1 to 30, and is defined until the half overflows. */
  lemma PshrRounds(a: int, shift: nat)
    requires In32(a) && 1 <= shift <= 30
    ensures Pshr32(a, shift).Some? <==> a + Pow2(shift - 1) < 0x8000_0000
    ensures In16(a) ==> Pshr32(a, shift).Some?
    ensures Pshr32(a, shift).Some? ==> Nearest(Pshr32(a, shift).value, a, Pow2(shift))
  {
    HalfThenFloor(a, Pow2(shift - 1));
    Pow2Monotone(shift - 1, 29);
    Pow2Add(14, 15);
    Pow2Values();
    assert Shr(Pow2(shift), 1) == Pow2(shift - 1) by { assert Pow2(1) == 2; }
  }

  /** MULT16_16_P13, P14 and P15 round to nearest and never overflow. */
  lemma ShortProductRounds(q: QScale, a: int, b: int)
    requires In16(a) && In16(b)
    ensures Mult16_16_P(q, a, b).Some? && Nearest(Mult16_16_P(q, a, b).value, a * b, Pow2(q))
  {
    Pow2Values();
    ProductBound(a, b);
    WordFacts(a);
    WordFacts(b);
    HalfThenFloor(a * b, Pow2(q - 1));
  }

  lemma RecombineRounded(a: int, b: int)
    ensures (a * b + 0x4000) / 0x8000 == a * (b / 0x8000) + (a * (b % 0x8000) + 0x4000) / 0x8000
  {
    Recombine(0x8000, a, b);
    ShiftOutMultiple(0x8000, a * (b / 0x8000), a * (b % 0x8000) + 0x4000);
  }

  lemma HalfProducts15(a: int, b: int) returns (high: int, low: int)
    requires In16(a)
    ensures Mult16_32_P15(a, b) == AddRounded(high, low)
    ensures high == a * (b / 0x8000) - 0x1_0000 * (a * Wraps(b / 0x8000)) && low == a * (b % 0x8000)
    ensures -0x4000_0000 <= high <= 0x4000_0000 && -0x4000_0000 <= low <= 0x4000_0000
  {
    Pow2Values();
    HalfProducts(15, a, b);
    high, low := Mult16_16(a, Shr(b, 15)), Mult16_16(a, And(b, 0x7fff));
  }

  lemma AddRoundedValue(high: int, low: int)
    requires -0x4000_0000 <= high <= 0x4000_0000 && -0x4000_0000 <= low <= 0x4000_0000
    ensures AddRounded(high, low) == Some(high + (low + 0x4000) / 0x8000)
  {
    Pow2Values();
    assert Pow2(1) == 2;
  }

  lemma RoundedFromHalves(a: int, b: int, high: int, low: int, lost: int)
    requires -0x4000_0000 <= high <= 0x4000_0000 && -0x4000_0000 <= low <= 0x4000_0000
    requires high == a * (b / 0x8000) - lost && low == a * (b % 0x8000)
    ensures AddRounded(high, low) == Some((a * b + 0x4000) / 0x8000 - lost)
  {
    AddRoundedValue(high, low);
    RecombineRounded(a, b);
  }

  /** What MULT16_32_P15 computes on every input: the rounded product minus whole wraps of a. */
  lemma RoundedSplitProduct(a: int, b: int)
    requires In16(a) && In32(b)
    ensures Mult16_32_P15(a, b) == Some((a * b + 0x4000) / 0x8000 - 0x1_0000 * (a * Wraps(b / 0x8000)))
  {
    hide Mult16_32_P15, AddRounded, Wraps;
    var high, low := HalfProducts15(a, b);
    RoundedFromHalves(a, b, high, low, 0x1_0000 * (a * Wraps(b / 0x8000)));
  }

  /** Rounding only the low half still rounds the whole product, on exactly the same range. */
  lemma RoundedSplitProductExact(a: int, b: int)
    requires In16(a) && In32(b)
    ensures Mult16_32_P15(a, b).Some?
    ensures Nearest(Mult16_32_P15(a, b).value, a * b, 0x8000)
       <==> (a == 0 || -0x4000_0000 <= b < 0x4000_0000)
  {
    RoundedSplitProduct(a, b);
    High15(a, b);
    NearestIff(Mult16_32_P15(a, b).value, a * b, 0x1_0000 * (a * Wraps(b / 0x8000)));
  }

  lemma NearestIff(r: int, n: int, lost: int)
    requires r == (n + 0x4000) / 0x8000 - lost
    ensures Nearest(r, n, 0x8000) <==> lost == 0
  {
    HalfThenFloor(n, 0x4000);
    if Nearest(r, n, 0x8000) { NearestUnique(r, (n + 0x4000) / 0x8000, n, 0x8000); }
  }

  lemma High15(a: int, b: int)
    ensures a * Wraps(b / 0x8000) == 0 <==> a == 0 || -0x4000_0000 <= b < 0x4000_0000
  {
    WordFacts(b / 0x8000);
    ZeroProduct(a, Wraps(b / 0x8000));
  }

  // ---- rounded division -------------------------------------------------------------

  /**
   When n/b, cut off toward zero, is the nearest to (n-h)/b, for b > 0: the remainder C
   leaves must stay within half a divisor of the h that was added.
   */
  predicate RemainderFits(n: int, b: int, h: int)
    requires b > 0
  {
    if n >= 0 then 2 * h - b <= 2 * (n % b) < b + 2 * h else -b < 2 * ((-n) % b + h) <= b
  }

  /** The same for a divisor of either sign, with the half that PDIV32 takes of its 16-bit cast. */
  predicate HalfFits(a: int, b: int)
    requires b != 0
  {
    var h := Shr(Word16(b), 1);
    if b > 0 then RemainderFits(a + h, b, h) else RemainderFits(-(a + h), -b, -h)
  }

  lemma BiasedQuotient(n: int, b: int, h: int)
    requires b > 0
    ensures Nearest(CDiv(n, b), n - h, b) <==> RemainderFits(n, b, h)
  {
    hide Nearest;
    NearestWindow(CDiv(n, b), n - h, b);
    if n >= 0 {
      DivMod(n, b);
    } else {
      DivMod(-n, b);
      assert b * -((-n) / b) == -(b * ((-n) / b));
    }
  }

  lemma DistanceMirrored(n: int, d: int, m: int)
    ensures Distance(n, d, m) == Distance(-n, -d, m)
  {
    assert -d * m == -(d * m);
  }

  lemma NearestMirrored(r: int, n: int, d: int)
    requires Nearest(r, n, d)
    ensures Nearest(r, -n, -d)
  {
    hide Distance;
    var n', d' := -n, -d;
    forall m: int
      ensures Distance(n', d', r) <= Distance(n', d', m)
        && (Distance(n', d', r) == Distance(n', d', m) ==> m <= r)
    {
      DistanceMirrored(n, d, m);
      DistanceMirrored(n, d, r);
    }
  }

  lemma CDivMirrored(n: int, b: int)
    requires b < 0
    ensures CDiv(n, b) == CDiv(-n, -b)
  {
    var x := if n >= 0 then n else -n;
    DivMod(x, -b);
    QuotientMirrored(x, b);
  }

  lemma QuotientMirrored(x: nat, b: int)
    requires b < 0
    ensures x / b == -(x / -b)
    ensures x == 0 ==> x / -b == 0
  {
    DivMod(x, -b);
    assert b * -(x / -b) == -b * (x / -b);
    NegativeDivisor(x, b, -(x / -b));
    if x == 0 { QuotientUnique(x, -b, 0); }
  }

  lemma NegativeDivisor(n: int, b: int, q: int)
    requires b < 0 && 0 <= n - b * q < -b
    ensures n / b == q
  {
    var k := n / b - q;
    assert b * (n / b) == b * q + b * k;
    MulMono(-b, 1, k);
    MulMono(-b, k, -1);
    assert -b * k == -(b * k);
  }

  /** q is n/b cut off toward zero: the remainder is smaller than b and never opposes n. */
  predicate CutOff(n: int, b: int, q: int) {
    var r := n - b * q;
    (if b >= 0 then -b < r < b else b < r < -b) && (n >= 0 ==> r >= 0) && (n <= 0 ==> r <= 0)
  }

  lemma CutOffPositive(n: int, b: int)
    requires b > 0
    ensures CutOff(n, b, CDiv(n, b))
  {
    if n >= 0 {
      DivMod(n, b);
    } else {
      DivMod(-n, b);
      assert b * -((-n) / b) == -(b * ((-n) / b));
    }
  }

  lemma CutOffMirrored(n: int, b: int, q: int)
    requires b < 0 && CutOff(-n, -b, q)
    ensures CutOff(n, b, q)
  {
    assert -b * q == -(b * q);
  }

  lemma CDivCutsOff(n: int, b: int)
    requires b != 0
    ensures CutOff(n, b, CDiv(n, b))
  {
    hide CDiv, CutOff;
    if b > 0 {
      CutOffPositive(n, b);
    } else {
      CutOffPositive(-n, -b);
      CDivMirrored(n, b);
      CutOffMirrored(n, b, CDiv(n, b));
    }
  }

  /** Only the least number over minus one leaves 32 bits. */
  lemma QuotientFits(n: int, b: int)
    requires b != 0 && -0x8000_0000 <= n < 0x8000_0000
    ensures In32(CDiv(n, b)) <==> !(n == -0x8000_0000 && b == -1)
  {
    hide CDiv;
    CDivCutsOff(n, b);
    var q := CDiv(n, b);
    if b == 1 || b == -1 {
      assert b * q == q || b * q == -q;
    } else {
      QuotientShrinks(n, b, q);
    }
  }

  lemma QuotientShrinks(n: int, b: int, q: int)
    requires (b >= 2 || b <= -2) && CutOff(n, b, q) && -0x8000_0000 <= n < 0x8000_0000
    ensures In32(q)
  {
    var d, p := if b > 0 then b else -b, if b > 0 then q else -q;
    assert b * q == d * p;
    MulMono(d, 0x4000_0001, p);
    MulMono(d, p, -0x4000_0001);
    assert d * 0x4000_0001 >= 2 * 0x4000_0001 + (d - 2) && d * -0x4000_0001 <= -2 * 0x4000_0001 - (d - 2);
  }

  lemma CastIsUnique(b: int, w: int)
    requires -0x8000 <= w < 0x8000 && (b - w) % 0x1_0000 == 0
    ensures Word16(b) == w
  {
    WordFacts(b);
  }

  /**
   PDIV32 on every input.  With w the 16-bit value congruent to the divisor and h the lower
   half of w: it is defined exactly when the divisor is not zero, a + h stays in 32 bits and
   the quotient does, and then it is (a + h) / b cut off toward zero.
   */
  lemma PDivValue(a: int, b: int, w: int, h: int)
    requires -0x8000 <= w < 0x8000 && (b - w) % 0x1_0000 == 0 && 2 * h <= w <= 2 * h + 1
    ensures PDiv32(a, b).Some?
       <==> b != 0 && -0x8000_0000 <= a + h < 0x8000_0000 && !(a + h == -0x8000_0000 && b == -1)
    ensures PDiv32(a, b).Some? ==> CutOff(a + h, b, PDiv32(a, b).value)
  {
    hide CDiv, Word16, CutOff;
    CastIsUnique(b, w);
    assert Shr(w, 1) == h by { assert Pow2(1) == 2; }
    if b != 0 {
      if -0x8000_0000 <= a + h < 0x8000_0000 { QuotientFits(a + h, b); }
      CDivCutsOff(a + h, b);
    }
  }

  /** PDIV32_16 on every input: PDIV32 by the cast divisor, wrapped to 16 bits. */
  lemma PDiv16Value(a: int, b: int, w: int)
    requires -0x8000 <= w < 0x8000 && (b - w) % 0x1_0000 == 0
    ensures PDiv32_16(a, b).Some? <==> PDiv32(a, w).Some?
    ensures PDiv32_16(a, b).Some? ==>
      var v := PDiv32_16(a, b).value; -0x8000 <= v < 0x8000 && (PDiv32(a, w).value - v) % 0x1_0000 == 0
  {
    hide PDiv32, Word16;
    CastIsUnique(b, w);
    if PDiv32(a, w).Some? { WordFacts(PDiv32(a, w).value); }
  }

  /** PDIV32 rounds to nearest exactly when the remainder fits the half it really added, for every divisor. */
  lemma PDivRounds(a: int, b: int)
    requires PDiv32(a, b).Some?
    ensures b != 0 && (Nearest(PDiv32(a, b).value, a, b) <==> HalfFits(a, b))
  {
    hide Nearest, Word16, RemainderFits, CDiv;
    var h := Shr(Word16(b), 1);
    if b > 0 {
      BiasedQuotient(a + h, b, h);
    } else {
      CDivMirrored(a + h, b);
      BiasedQuotient(-(a + h), -b, -h);
      var q := CDiv(a + h, b);
      if Nearest(q, a, b) { NearestMirrored(q, a, b); }
      if Nearest(q, -a, -b) { NearestMirrored(q, -a, -b); }
    }
  }

  /** The range of numerators whose quotient fits 16 bits. */
  predicate ShortQuotient(n: int, b: int)
    requires b != 0
  {
    if b > 0 then -0x8001 * b < n < 0x8000 * b else -0x8001 * -b < -n < 0x8000 * -b
  }

  lemma BelowQuotient(x: int, d: int, t: int)
    requires d > 0
    ensures x / d < t <==> x < t * d
  {
    DivMod(x, d);
    MulMono(d, t, x / d);
    MulMono(d, x / d, t - 1);
    assert d * (t - 1) == t * d - d;
  }

  lemma ShortQuotientPositive(n: int, b: int)
    requires b > 0
    ensures In16(CDiv(n, b)) <==> -0x8001 * b < n < 0x8000 * b
  {
    if n >= 0 {
      BelowQuotient(n, b, 0x8000);
      BelowQuotient(n, b, 0);
    } else {
      BelowQuotient(-n, b, 0x8001);
      BelowQuotient(-n, b, 0);
    }
  }

  lemma QuotientIsShort(n: int, b: int)
    requires b != 0
    ensures In16(CDiv(n, b)) <==> ShortQuotient(n, b)
  {
    hide In16, CDiv;
    if b > 0 {
      ShortQuotientPositive(n, b);
    } else {
      CDivMirrored(n, b);
      ShortQuotientPositive(-n, -b);
    }
  }

  lemma CDivError(n: int, b: int)
    requires b != 0
    ensures Distance(n, b, CDiv(n, b)) < Distance(b, 0, 0)
  {
    hide CDiv;
    CDivCutsOff(n, b);
  }

  lemma FarMultiple(b: int, k: int)
    requires b != 0
    ensures Distance(b * k, 0, 0) < 4 * Distance(b, 0, 0) ==> -4 < k < 4
  {
    var d := Distance(b, 0, 0);
    MulMono(d, 4, k);
    MulMono(d, k, -4);
    assert b * k == d * k || b * k == -(d * k);
  }

  lemma NearMultiples(a: int, b: int, h: int, q: int, r: int)
    requires b != 0 && Distance(h, 0, 0) <= Distance(b, 0, 0)
    requires Distance(a + h, b, q) < Distance(b, 0, 0) && Distance(a, b, r) <= Distance(a, b, q)
    ensures -4 < q - r < 4
  {
    DistanceOfNeighbour(a, b, r, q - r);
    FarMultiple(b, q - r);
  }

  /** A cast that changes the quotient takes it far from anything near. */
  lemma CastIsFar(a: int, b: int, h: int)
    requires b != 0 && Distance(h, 0, 0) <= Distance(b, 0, 0) && Nearest(Word16(CDiv(a + h, b)), a, b)
    ensures In16(CDiv(a + h, b))
  {
    hide CDiv, Word16, Wraps, Distance;
    var q := CDiv(a + h, b);
    WordFacts(q);
    CDivError(a + h, b);
    assert Distance(a, b, Word16(q)) <= Distance(a, b, q);
    NearMultiples(a, b, h, q, Word16(q));
  }

  /** PDIV32_16 rounds to nearest exactly when PDIV32 does and the quotient fits its cast. */
  lemma PDiv16Rounds(a: int, b: int)
    requires PDiv32_16(a, b).Some?
    ensures var w := Word16(b);
      w != 0 && (Nearest(PDiv32_16(a, b).value, a, w) <==> HalfFits(a, w) && ShortQuotient(a + Shr(w, 1), w))
  {
    hide Nearest, HalfFits, ShortQuotient, CDiv;
    var w := Word16(b);
    WordFacts(b);
    WordFacts(w);
    PDivRounds(a, w);
    var q, h := PDiv32(a, w).value, Shr(w, 1);
    WordFacts(q);
    QuotientIsShort(a + h, w);
    assert Pow2(1) == 2;
    if Nearest(Word16(q), a, w) {
      CastIsFar(a, w, h);
    }
  }

  /**
   For the divisors the cast leaves alone the condition is that the biased numerator is not
   negative, or happens to be a multiple of the divisor.
   */
  lemma PDivShortDivisor(a: int, b: int)
    requires 0 < b < 0x8000
    ensures HalfFits(a, b) <==> a + b / 2 >= 0 || (a + b / 2) % b == 0
  {
    WordFacts(b);
    assert Pow2(1) == 2;
    var n := a + b / 2;
    if n >= 0 {
      DivMod(n, b);
    } else {
      DivMod(-n, b);
      MultipleNegated(n, b);
    }
  }

  lemma MultipleNegated(n: int, b: int)
    requires b > 0
    ensures n % b == 0 <==> (-n) % b == 0
  {
    DivMod(n, b);
    DivMod(-n, b);
    if n % b == 0 {
      assert b * -(n / b) == -(b * (n / b));
      QuotientUnique(-n, b, -(n / b));
    }
    if (-n) % b == 0 {
      assert b * -((-n) / b) == -(b * ((-n) / b));
      QuotientUnique(n, b, -((-n) / b));
    }
  }

  /** Minus five thirds is nearest to -2, and PDIV32 says -1. */
  lemma PDivNegativeFails()
    ensures PDiv32(-5, 3) == Some(-1) && !Nearest(-1, -5, 3)
  {
    assert Pow2(1) == 2;
    NearestWindow(-1, -5, 3);
  }

  /** The 16-bit cast of the divisor: PDIV32 rounds every non-negative numerator exactly when b fits it. */
  lemma PDivDivisorRange(b: int)
    requires 0 < b < 0x8000_0000
    ensures (forall a :: 0 <= a < 0x8000_0000 && PDiv32(a, b).Some? ==> Nearest(PDiv32(a, b).value, a, b))
       <==> b < 0x8000
  {
    if b < 0x8000 {
      forall a | 0 <= a < 0x8000_0000 && PDiv32(a, b).Some? ensures Nearest(PDiv32(a, b).value, a, b) {
        PDivRounds(a, b);
        PDivShortDivisor(a, b);
      }
    } else {
      PDivLargeDivisor(b);
    }
  }

  /** A divisor that the cast changes turns a numerator above half of it into 0. */
  lemma PDivLargeDivisor(b: int)
    requires 0x8000 <= b < 0x8000_0000
    ensures PDiv32(b - b / 2, b) == Some(0) && !Nearest(0, b - b / 2, b)
  {
    assert Shr(Word16(b), 1) < b / 2 && Shr(Word16(b), 1) >= -0x4000 by {
      WordFacts(b);
      assert Pow2(1) == 2;
    }
    var n := b - b / 2 + Shr(Word16(b), 1);
    QuotientUnique(n, b, 0);
    NearestWindow(0, b - b / 2, b);
  }
}
