/**
 How far the fixed-point kernel strays from exact arithmetic: over whole runs of
 multiply-accumulates, and against the float build of the same macros
 (ios/mediastreamer2.framework/Headers/dsptools.h:280-356) read over the reals.
 */
module FixedPointError {
  import opened Wrappers
  import opened FixedPoint

  // ---- multiply-accumulate ---------------------------------------------------------

  /**
   The kernel's products: MULT16_32_Qq, MULT16_16_Qq, MULT16_16_Pq and MULT16_32_P15.  The
   header accumulates Split 11 and 15, Short 11 and 13, and Rounded 13.
   */
  datatype Mult = Split(q: QScale) | Short(q: QScale) | Rounded(q: QScale) | SplitRounded

  datatype Operands = Operands(a: int, b: int)

  function MultValue(m: Mult, o: Operands): Option<int> {
    match m
    case Split(q) => Mult16_32_Q(q, o.a, o.b)
    case Short(q) => Some(Mult16_16_Q(q, o.a, o.b))
    case Rounded(q) => Mult16_16_P(q, o.a, o.b)
    case SplitRounded => Mult16_32_P15(o.a, o.b)
  }

  /** The accumulating form of a product: MAC16_32_Q11, MAC16_32_Q15, MAC16_16_Q11 and so on. */
  function MacStep(m: Mult, c: int, o: Operands): Option<int> {
    var p :- MultValue(m, o);
    Add32(c, p)
  }

  function MacRun(m: Mult, c: int, s: seq<Operands>): Option<int> {
    if s == [] then Some(c)
    else
      var before :- MacRun(m, c, s[..|s| - 1]);
      MacStep(m, before, s[|s| - 1])
  }

  function Scale(m: Mult): QScale {
    if m.SplitRounded? then 15 else m.q
  }

  predicate Rounds(m: Mult) {
    m.Rounded? || m.SplitRounded?
  }

  /** The operands the macro is meant for: 16-bit words, and for the split forms b in its range. */
  predicate Suits(m: Mult, o: Operands) {
    && In16(o.a)
    && if m.Split? || m.SplitRounded?
       then In32(o.b) && (o.a == 0 || -Pow2(15 + Scale(m)) <= o.b < Pow2(15 + Scale(m)))
       else In16(o.b)
  }

  /** One step loses at most this much of the product it works with, in units of 2^-q of a last place. */
  function MaxLoss(m: Mult): int {
    (if Rounds(m) then Pow2(Scale(m) - 1) else Pow2(Scale(m))) - 1
  }

  /** And gains at most this much. */
  function MaxGain(m: Mult): int {
    if Rounds(m) then Pow2(Scale(m) - 1) else 0
  }

  /** The operands the macro's types admit. */
  predicate Typed(m: Mult, o: Operands) {
    In16(o.a) && if m.Split? || m.SplitRounded? then In32(o.b) else In16(o.b)
  }

  /** What the cast of a split form's high half takes off the result, in units of the last place. */
  function Lost(m: Mult, o: Operands): int {
    if m.Split? || m.SplitRounded? then 0x1_0000 * (o.a * Wraps(Shr(o.b, Scale(m)))) else 0
  }

  /** The product the macro really approximates. */
  function Worked(m: Mult, o: Operands): int {
    o.a * o.b - Pow2(Scale(m)) * Lost(m, o)
  }

  function WorkedSum(m: Mult, s: seq<Operands>): int {
    if s == [] then 0 else WorkedSum(m, s[..|s| - 1]) + Worked(m, s[|s| - 1])
  }

  function DotProduct(s: seq<Operands>): int {
    if s == [] then 0 else DotProduct(s[..|s| - 1]) + s[|s| - 1].a * s[|s| - 1].b
  }

  /** The result p is near the product n. */
  predicate Near(m: Mult, n: int, p: int) {
    -MaxGain(m) <= n - Pow2(Scale(m)) * p <= MaxLoss(m)
  }

  predicate TermFits(m: Mult, o: Operands, p: int) {
    Near(m, o.a * o.b, p)
  }

  lemma NearShifted(m: Mult, n: int, p: int, lost: int)
    requires Near(m, n, p)
    ensures Near(m, n - Pow2(Scale(m)) * lost, p - lost)
  {
    hide Pow2, MaxGain, MaxLoss;
    assert Pow2(Scale(m)) * (p - lost) == Pow2(Scale(m)) * p - Pow2(Scale(m)) * lost;
  }

  lemma NearestIsNear(m: Mult, n: int, p: int)
    requires Rounds(m) && Nearest(p, n, Pow2(Scale(m)))
    ensures Near(m, n, p)
  {
    NearestWindow(p, n, Pow2(Scale(m)));
  }

  lemma FloorIsNear(m: Mult, n: int)
    requires !Rounds(m)
    ensures Near(m, n, n / Pow2(Scale(m)))
  {
    DivMod(n, Pow2(Scale(m)));
  }

  /** The product of any operands the types admit: it is defined, and near the one worked with. */
  lemma Term(m: Mult, o: Operands) returns (p: int)
    requires Typed(m, o)
    ensures MultValue(m, o) == Some(p) && Near(m, Worked(m, o), p)
  {
    hide Near, Nearest, Wraps, Mult16_32_Q, Mult16_32_P15, Mult16_16_P;
    var n := o.a * o.b;
    match m {
      case Split(q) =>
        SplitProduct(q, o.a, o.b);
        p := n / Pow2(q) - Lost(m, o);
        FloorIsNear(m, n);
        NearShifted(m, n, n / Pow2(q), Lost(m, o));
      case Short(q) =>
        WordFacts(o.a);
        WordFacts(o.b);
        p := n / Pow2(q);
        FloorIsNear(m, n);
      case Rounded(q) =>
        ShortProductRounds(q, o.a, o.b);
        p := Mult16_16_P(q, o.a, o.b).value;
        NearestIsNear(m, n, p);
      case SplitRounded =>
        Pow2Values();
        RoundedSplitProduct(o.a, o.b);
        p := (n + 0x4000) / 0x8000 - Lost(m, o);
        HalfThenFloor(n, 0x4000);
        NearestIsNear(m, n, (n + 0x4000) / 0x8000);
        NearShifted(m, n, (n + 0x4000) / 0x8000, Lost(m, o));
    }
  }

  /** Operands in the split range lose nothing: the macro works with the exact product. */
  lemma SuitableLoseNothing(m: Mult, o: Operands)
    requires Suits(m, o)
    ensures Typed(m, o) && Lost(m, o) == 0 && Worked(m, o) == o.a * o.b
  {
    if m.Split? || m.SplitRounded? {
      RangeOfHigh(Scale(m), o.b);
      WordFacts(Shr(o.b, Scale(m)));
      ZeroProduct(o.a, Wraps(Shr(o.b, Scale(m))));
    }
  }

  lemma SuitableTerm(m: Mult, o: Operands) returns (p: int)
    requires Suits(m, o)
    ensures MultValue(m, o) == Some(p) && TermFits(m, o, p)
  {
    hide MultValue, Near, Suits, Worked;
    SuitableLoseNothing(m, o);
    p := Term(m, o);
  }

  /** 32-bit summation, which is undefined as soon as a partial sum overflows. */
  function Accumulate(c: int, ps: seq<int>): Option<int> {
    if ps == [] then Some(c)
    else
      var before :- Accumulate(c, ps[..|ps| - 1]);
      Add32(before, ps[|ps| - 1])
  }

  lemma {:induction false} Terms(m: Mult, c: int, s: seq<Operands>) returns (ps: seq<int>)
    requires forall i :: 0 <= i < |s| ==> Typed(m, s[i])
    ensures |ps| == |s| && MacRun(m, c, s) == Accumulate(c, ps)
    ensures forall i :: 0 <= i < |s| ==> Near(m, Worked(m, s[i]), ps[i])
    decreases |s|
  {
    hide MultValue, Typed, Near, Worked;
    if s == [] {
      ps := [];
    } else {
      var n := |s| - 1;
      var front := Terms(m, c, s[..n]);
      var p := Term(m, s[n]);
      ps := front + [p];
      assert ps[..n] == front;
    }
  }

  lemma ErrorStep(d: int, c: int, before: int, p: int, sum: int, ab: int, n: nat, loss: int, gain: int)
    requires -(n * gain) <= d * (c - before) + sum <= n * loss
    requires -gain <= ab - d * p <= loss
    ensures -((n + 1) * gain) <= d * (c - (before + p)) + (sum + ab) <= (n + 1) * loss
  {
    assert d * (c - (before + p)) == d * (c - before) - d * p;
    assert (n + 1) * gain == n * gain + gain && (n + 1) * loss == n * loss + loss;
  }

  /** The run's result r strays from the sum it works with by at most n single-step errors. */
  predicate RunNear(m: Mult, c: int, sum: int, n: nat, r: int) {
    -(n * MaxGain(m)) <= Pow2(Scale(m)) * (c - r) + sum <= n * MaxLoss(m)
  }

  lemma {:induction false} AccumulateError(m: Mult, c: int, s: seq<Operands>, ps: seq<int>)
    requires |ps| == |s| && Accumulate(c, ps).Some?
    requires forall i :: 0 <= i < |s| ==> Near(m, Worked(m, s[i]), ps[i])
    ensures RunNear(m, c, WorkedSum(m, s), |s|, Accumulate(c, ps).value)
    decreases |s|
  {
    hide Pow2, MaxLoss, MaxGain, Worked;
    if s != [] {
      var n := |s| - 1;
      AccumulateError(m, c, s[..n], ps[..n]);
      assert Near(m, Worked(m, s[n]), ps[n]);
      ErrorStep(Pow2(Scale(m)), c, Accumulate(c, ps[..n]).value, ps[n], WorkedSum(m, s[..n]), Worked(m, s[n]),
                n, MaxLoss(m), MaxGain(m));
    }
  }

  /**
   A whole run of n steps over any operands the types admit: whenever no partial sum left 32
   bits, the result is within n single-step errors, on the same side, of the exact scaled
   sum less 2^16 * a for each wrap of a high half.
   */
  lemma MacRunErrorAll(m: Mult, c: int, s: seq<Operands>)
    requires forall i :: 0 <= i < |s| ==> Typed(m, s[i])
    requires MacRun(m, c, s).Some?
    ensures RunNear(m, c, WorkedSum(m, s), |s|, MacRun(m, c, s).value)
  {
    hide RunNear, Near, Typed, MultValue, Worked, WorkedSum, MacRun, Accumulate;
    var ps := Terms(m, c, s);
    AccumulateError(m, c, s, ps);
  }

  /** The term of one step, on its own. */
  function TermValue(m: Mult, o: Operands): int {
    match MultValue(m, o)
    case Some(p) => p
    case None => 0
  }

  /** The sum without any limit on its size. */
  function Total(m: Mult, c: int, s: seq<Operands>): int {
    if s == [] then c else Total(m, c, s[..|s| - 1]) + TermValue(m, s[|s| - 1])
  }

  ghost predicate PartialSumFits(m: Mult, c: int, s: seq<Operands>, k: nat)
    requires k <= |s|
  {
    -0x8000_0000 <= Total(m, c, s[..k]) < 0x8000_0000
  }

  /** A run is defined exactly when every partial sum fits 32 bits, and then it is the sum of its terms. */
  lemma {:induction false} MacRunIsSum(m: Mult, c: int, s: seq<Operands>)
    requires forall i :: 0 <= i < |s| ==> Typed(m, s[i])
    ensures MacRun(m, c, s).Some? <==> forall k :: 1 <= k <= |s| ==> PartialSumFits(m, c, s, k)
    ensures MacRun(m, c, s).Some? ==> MacRun(m, c, s).value == Total(m, c, s)
    decreases |s|
  {
    hide MultValue, Typed;
    if s != [] {
      var n := |s| - 1;
      var front := s[..n];
      MacRunIsSum(m, c, front);
      var p := Term(m, s[n]);
      assert s[..|s|] == s && (PartialSumFits(m, c, s, |s|) <==> In32(Total(m, c, front) + p));
      forall k | 1 <= k <= n ensures PartialSumFits(m, c, front, k) <==> PartialSumFits(m, c, s, k) {
        assert front[..k] == s[..k];
      }
    }
  }

  lemma {:induction false} SuitableSum(m: Mult, s: seq<Operands>)
    requires forall i :: 0 <= i < |s| ==> Suits(m, s[i])
    ensures WorkedSum(m, s) == DotProduct(s)
    decreases |s|
  {
    hide Suits, Worked;
    if s != [] {
      SuitableSum(m, s[..|s| - 1]);
      SuitableLoseNothing(m, s[|s| - 1]);
    }
  }

  /** Over suitable operands nothing wraps, and the error is against the exact scaled sum. */
  lemma MacRunError(m: Mult, c: int, s: seq<Operands>)
    requires forall i :: 0 <= i < |s| ==> Suits(m, s[i])
    requires MacRun(m, c, s).Some?
    ensures var r := MacRun(m, c, s).value;
      -(|s| * MaxGain(m)) <= Pow2(Scale(m)) * (c - r) + DotProduct(s) <= |s| * MaxLoss(m)
  {
    hide Pow2, MaxLoss, MaxGain, Suits, Typed, DotProduct, WorkedSum, MacRun;
    forall i | 0 <= i < |s| ensures Typed(m, s[i]) { SuitableLoseNothing(m, s[i]); }
    MacRunErrorAll(m, c, s);
    SuitableSum(m, s);
  }

  /** The most by which a term can miss its exact product, in units of 2^-q of a last place. */
  function Slack(m: Mult): nat {
    Pow2Values();
    if Rounds(m) then MaxGain(m) else MaxLoss(m)
  }

  function Magnitude(n: int): nat {
    if n >= 0 then n else -n
  }

  /** The greatest magnitude the term of one step can have. */
  function Reach(m: Mult, o: Operands): nat {
    Quotient(Magnitude(o.a * o.b) + Slack(m), Pow2(Scale(m)))
  }

  function Quotient(n: nat, d: int): nat
    requires d > 0
  {
    n / d
  }

  /** What a run can add to its accumulator, or take from it. */
  function Headroom(m: Mult, s: seq<Operands>): nat {
    if s == [] then 0 else Headroom(m, s[..|s| - 1]) + Reach(m, s[|s| - 1])
  }

  lemma AtMostQuotient(n: nat, d: int, p: int)
    requires d > 0 && d * p <= n
    ensures p <= Quotient(n, d)
  {
    DivMod(n, d);
    MulMono(d, n / d + 1, p);
    assert d * (n / d + 1) == d * (n / d) + d;
  }

  lemma TermReaches(m: Mult, o: Operands, p: int)
    requires TermFits(m, o, p)
    ensures Magnitude(p) <= Reach(m, o)
  {
    hide Pow2, Quotient;
    var d, n := Pow2(Scale(m)), Magnitude(o.a * o.b) + Slack(m);
    assert d * -p == -(d * p);
    AtMostQuotient(n, d, p);
    AtMostQuotient(n, d, -p);
  }

  lemma {:induction false} AccumulateDefined(m: Mult, c: int, s: seq<Operands>, ps: seq<int>)
    requires |ps| == |s| && forall i :: 0 <= i < |s| ==> Magnitude(ps[i]) <= Reach(m, s[i])
    requires -0x8000_0000 <= c - Headroom(m, s) && c + Headroom(m, s) < 0x8000_0000
    ensures Accumulate(c, ps).Some?
    ensures c - Headroom(m, s) <= Accumulate(c, ps).value <= c + Headroom(m, s)
    decreases |s|
  {
    hide Reach;
    if s != [] {
      AccumulateDefined(m, c, s[..|s| - 1], ps[..|s| - 1]);
    }
  }

  /** A run whose operands leave the accumulator its headroom never overflows. */
  lemma MacRunDefined(m: Mult, c: int, s: seq<Operands>)
    requires forall i :: 0 <= i < |s| ==> Suits(m, s[i])
    requires -0x8000_0000 <= c - Headroom(m, s) && c + Headroom(m, s) < 0x8000_0000
    ensures MacRun(m, c, s).Some?
    ensures c - Headroom(m, s) <= MacRun(m, c, s).value <= c + Headroom(m, s)
  {
    hide Suits, Typed, Near, Worked, MacRun, Accumulate, Headroom, Reach;
    forall i | 0 <= i < |s| ensures Typed(m, s[i]) { SuitableLoseNothing(m, s[i]); }
    var ps := Terms(m, c, s);
    forall i | 0 <= i < |ps| ensures Magnitude(ps[i]) <= Reach(m, s[i]) {
      SuitableLoseNothing(m, s[i]);
      TermReaches(m, s[i], ps[i]);
    }
    AccumulateDefined(m, c, s, ps);
  }

  /** The largest magnitude any suitable pair of operands gives a term. */
  function TermBound(m: Mult): nat {
    if m.Split? || m.SplitRounded? then 0x4000_0000 else Pow2(30 - Scale(m))
  }

  lemma ProductWithin(m: Mult, o: Operands)
    requires Suits(m, o)
    ensures -(Pow2(Scale(m)) * TermBound(m)) <= o.a * o.b <= Pow2(Scale(m)) * TermBound(m)
  {
    var q: nat := Scale(m);
    Pow2Values();
    if m.Split? || m.SplitRounded? {
      Pow2Add(15, q);
      SplitProductBound(o.a, o.b, Pow2(15 + q));
    } else {
      ProductBound(o.a, o.b);
      Pow2Add(15, 15);
      Pow2Add(q, 30 - q);
    }
  }

  lemma SplitProductBound(a: int, b: int, w: int)
    requires In16(a) && w > 0 && (a == 0 || -w <= b < w)
    ensures -(0x8000 * w) <= a * b <= 0x8000 * w
  {
    MulMono(w, a, 0x8000);
    MulMono(w, -0x8000, a);
    MulMono(a, b, w);
    MulMono(a, -w, b);
    MulMono(-a, b, w);
    MulMono(-a, -w, b);
  }

  lemma QuotientBelow(n: nat, d: int, t: nat)
    requires d > 0 && n < d * t + d
    ensures Quotient(n, d) <= t
  {
    DivMod(n, d);
    MulMono(d, t + 1, n / d);
    assert d * (t + 1) == d * t + d;
  }

  lemma SlackBelowUnit(m: Mult)
    ensures Slack(m) < Pow2(Scale(m))
  {
    hide Pow2, Scale;
    Pow2Doubles(Scale(m));
  }

  lemma ReachBounded(m: Mult, o: Operands)
    requires Suits(m, o)
    ensures Reach(m, o) <= TermBound(m)
  {
    hide Suits, TermBound, Slack, Pow2, Quotient;
    ProductWithin(m, o);
    SlackBelowUnit(m);
    QuotientBelow(Magnitude(o.a * o.b) + Slack(m), Pow2(Scale(m)), TermBound(m));
  }

  /** How much headroom n suitable steps can need at most: 2^(30-q) each for 16-bit operands. */
  lemma {:induction false} HeadroomBounded(m: Mult, s: seq<Operands>)
    requires forall i :: 0 <= i < |s| ==> Suits(m, s[i])
    ensures Headroom(m, s) <= |s| * TermBound(m)
    decreases |s|
  {
    hide Suits, TermBound, Reach;
    if s != [] {
      HeadroomBounded(m, s[..|s| - 1]);
      ReachBounded(m, s[|s| - 1]);
      assert |s| * TermBound(m) == (|s| - 1) * TermBound(m) + TermBound(m);
    }
  }

  // ---- the float build, over the reals ------------------------------------------------

  /** MULT16_32_Q11 to Q15, P15 and the 16x16 products of the float build. */
  function FloatMult(a: real, b: real): real {
    a * b
  }

  /** MAC16_32_Q11 and Q15, MAC16_16_Q11, Q13 and P13 of the float build. */
  function FloatMac(c: real, a: real, b: real): real {
    c + FloatMult(a, b)
  }

  function Abs(x: real): real {
    if x >= 0.0 then x else -x
  }

  function Exp2(n: nat): (e: real)
    ensures e > 0.0
  {
    Pow2(n) as real
  }

  /** x doubled q times: the value of x in units of the last place of scale q. */
  function Scaled(x: real, q: nat): real
    decreases q
  {
    if q == 0 then x else Scaled(2.0 * x, q - 1)
  }

  lemma {:induction false} ScaledIsProduct(x: real, q: nat)
    ensures Scaled(x, q) == x * Exp2(q)
    decreases q
  {
    if q > 0 {
      ScaledIsProduct(2.0 * x, q - 1);
    }
  }

  /** The integer n stands for x at scale q, within e units of the last place. */
  predicate Represents(n: int, q: nat, x: real, e: real) {
    Abs(n as real - Scaled(x, q)) <= e
  }

  /** A C conversion from floating point drops the fraction. */
  function Truncate(y: real): int {
    if y >= 0.0 then y.Floor else -((-y).Floor)
  }

  /** QCONST32; QCONST16 is the same with a 16-bit range. */
  function QConst(x: real, bits: nat, lo: int, hi: int): Option<int> {
    var n := Truncate(0.5 + Scaled(x, bits));
    if lo <= n <= hi then Some(n) else None
  }

  /**
   A constant is within half a unit of what it stands for exactly when truncation toward
   zero did not bite: the biased value is not negative, or has no fraction.  Every constant
   is within one and a half units.
   */
  lemma QConstRounds(x: real, bits: nat, lo: int, hi: int)
    requires QConst(x, bits, lo, hi).Some?
    ensures Represents(QConst(x, bits, lo, hi).value, bits, x, 0.5)
       <==> var y := 0.5 + Scaled(x, bits); y >= 0.0 || y == y.Floor as real
    ensures Represents(QConst(x, bits, lo, hi).value, bits, x, 1.5)
  {
    hide Scaled;
    TruncateError(Scaled(x, bits));
  }

  /** Minus three quarters is a quarter from -1, and QCONST says 0. */
  lemma QConstNegativeFails()
    ensures QConst(-0.75, 0, -10, 10) == Some(0) && !Represents(0, 0, -0.75, 0.5)
  {
  }

  /** What QCONST yields: the biased value cut off toward zero, if that is in range. */
  lemma QConstValue(x: real, bits: nat, lo: int, hi: int, n: int)
    ensures QConst(x, bits, lo, hi) == Some(n) <==>
      var y := 0.5 + x * Exp2(bits);
      lo <= n <= hi && if y >= 0.0 then n as real <= y < n as real + 1.0 else n as real - 1.0 < y <= n as real
  {
    hide Scaled, Exp2;
    ScaledIsProduct(x, bits);
    CutOffReal(0.5 + x * Exp2(bits), n);
  }

  lemma CutOffReal(y: real, n: int)
    ensures Truncate(y) == n <==> if y >= 0.0 then n as real <= y < n as real + 1.0 else n as real - 1.0 < y <= n as real
  {
    FloorNegated(y);
  }

  lemma FloorNegated(y: real)
    ensures (-y).Floor == if y == y.Floor as real then -y.Floor else -y.Floor - 1
  {
    var f, g := y.Floor, (-y).Floor;
    assert (f + g) as real <= 0.0 && -2.0 < (f + g) as real;
  }

  lemma TruncateError(z: real)
    ensures var y := 0.5 + z; var n := Truncate(y) as real;
      && (Abs(n - z) <= 0.5 <==> y >= 0.0 || y == y.Floor as real)
      && Abs(n - z) <= 1.5
  {
    var y := 0.5 + z;
    FloorNegated(y);
    var f := y.Floor;
    assert f as real <= y < f as real + 1.0;
    if y < 0.0 {
      assert Truncate(y) == if y == f as real then f else f + 1;
    }
  }

  lemma AbsOfProduct(u: real, v: real)
    ensures Abs(u * v) == Abs(u) * Abs(v)
  {
    assert u >= 0.0 && v >= 0.0 ==> u * v >= 0.0;
    assert u >= 0.0 && v < 0.0 ==> u * v <= 0.0;
    assert u < 0.0 && v >= 0.0 ==> u * v <= 0.0;
    assert u < 0.0 && v < 0.0 ==> u * v > 0.0;
  }

  lemma AbsProduct(u: real, v: real, bu: real, bv: real)
    requires Abs(u) <= bu && Abs(v) <= bv
    ensures Abs(u * v) <= bu * bv
  {
    AbsOfProduct(u, v);
    RealMono(Abs(u), bu, Abs(v));
    RealMono(Abs(v), bv, bu);
  }

  lemma RealMono(x: real, y: real, z: real)
    requires x <= y && z >= 0.0
    ensures x * z <= y * z && z * x <= z * y
  {
  }

  lemma VaryRight(a: real, b: real, y: real, e: real)
    requires Abs(b - y) <= e
    ensures Abs(a * b - a * y) <= Abs(a) * e
  {
    AbsProduct(a, b - y, Abs(a), e);
    assert a * (b - y) == a * b - a * y;
  }

  lemma VaryLeft(a: real, x: real, y: real, e: real)
    requires Abs(a - x) <= e
    ensures Abs(a * y - x * y) <= e * Abs(y)
  {
    AbsProduct(a - x, y, e, Abs(y));
    assert (a - x) * y == a * y - x * y;
  }

  /** How far the product of two approximate numbers is from the product of the exact ones. */
  lemma ProductSpread(a: real, b: real, x: real, y: real, ea: real, eb: real)
    requires Abs(a - x) <= ea && Abs(b - y) <= eb
    ensures Abs(a * b - x * y) <= Abs(a) * eb + ea * Abs(y)
  {
    VaryRight(a, b, y, eb);
    VaryLeft(a, x, y, ea);
    Triangle(a * b, a * y, x * y, Abs(a) * eb, ea * Abs(y));
  }

  lemma Triangle(x: real, y: real, z: real, d: real, e: real)
    requires Abs(x - y) <= d && Abs(y - z) <= e
    ensures Abs(x - z) <= d + e
  {
  }

  lemma RealShuffle(x: real, y: real, e: real, f: real)
    ensures (x * e) * (y * f) == (x * y) * (e * f)
  {
    assert (x * e) * (y * f) == x * (e * (y * f));
    assert e * (y * f) == y * (e * f);
  }

  lemma RealAssociative(x: real, y: real, z: real)
    ensures x * (y * z) == (x * y) * z
  {
  }

  lemma RealDistributes(x: real, y: real, z: real)
    ensures (x + y) * z == x * z + y * z
  {
  }

  lemma Exp2Add(m: nat, n: nat)
    ensures Exp2(m + n) == Exp2(m) * Exp2(n)
  {
    Pow2Add(m, n);
  }

  predicate Splits(x: real, y: real, z: real, d: real) {
    x * y == z * d
  }

  lemma RealSplit(x: real, y: real, e: real, f: real, g: real, d: real, xe: real, yf: real, z: real)
    requires Splits(e, f, g, d)
    requires xe == x * e && yf == y * f && z == x * y * g
    ensures Splits(xe, yf, z, d)
  {
    RealShuffle(x, y, e, f);
    RealAssociative(x * y, g, d);
  }

  /** Scales add up in a product, and a shift by q takes q of them away again. */
  lemma ScaledProduct(x: real, p: nat, y: real, s: nat, q: nat)
    requires q <= p + s
    ensures Splits(Scaled(x, p), Scaled(y, s), Scaled(FloatMult(x, y), p + s - q), Exp2(q))
  {
    hide Splits, Scaled, Exp2;
    ExpSplits(p, s, q);
    ScaledIsProduct(x, p);
    ScaledIsProduct(y, s);
    ScaledIsProduct(FloatMult(x, y), p + s - q);
    RealSplit(x, y, Exp2(p), Exp2(s), Exp2(p + s - q), Exp2(q),
              Scaled(x, p), Scaled(y, s), Scaled(FloatMult(x, y), p + s - q));
  }

  lemma ExpSplits(p: nat, s: nat, q: nat)
    requires q <= p + s
    ensures Splits(Exp2(p), Exp2(s), Exp2(p + s - q), Exp2(q))
  {
    Exp2Add(p, s);
    Exp2Add(p + s - q, q);
  }

  lemma {:induction false} ScaledSum(x: real, y: real, q: nat)
    ensures Scaled(x + y, q) == Scaled(x, q) + Scaled(y, q)
    decreases q
  {
    if q > 0 {
      ScaledSum(2.0 * x, 2.0 * y, q - 1);
    }
  }

  /** Dividing a window by the scale. */
  lemma ScaleDown(r: real, z: real, d: real, w: real)
    requires d > 0.0 && Abs(r * d - z * d) <= w * d
    ensures Abs(r - z) <= w
  {
    RealDistributes(r, -z, d);
    var t := r - z;
    if t > w { RealStrict(w, t, d); }
    if -t > w { RealStrict(w, -t, d); }
  }

  lemma RealStrict(x: real, y: real, z: real)
    ensures x < y && z > 0.0 ==> x * z < y * z
  {
  }

  lemma DivideWindow(k: real, e: real, d: real)
    requires d > 0.0
    ensures (k + e / d) * d == k * d + e
  {
    assert (e / d) * d == e;
    RealDistributes(k, e / d, d);
  }

  /** r units of size d are within k units of the product a * b. */
  predicate OffBy(r: real, d: real, a: real, b: real, k: real) {
    Abs(r * d - a * b) <= k * d
  }

  /** What the operands' own errors contribute to the product, in units of its last place. */
  function Inherited(a: real, ea: real, y: real, eb: real, d: real): real
    requires d > 0.0
  {
    (Abs(a) * eb + ea * Abs(y)) / d
  }

  lemma QuotientWindow(r: real, d: real, a: real, b: real, k: real, x: real, y: real, z: real, e: real)
    requires d > 0.0 && OffBy(r, d, a, b, k) && Splits(x, y, z, d) && Abs(a * b - x * y) <= e
    ensures Abs(r - z) <= k + e / d
  {
    Triangle(r * d, a * b, z * d, k * d, e);
    DivideWindow(k, e, d);
    ScaleDown(r, z, d, k + e / d);
  }

  lemma ProductOfReals(a: real, x: real, ea: real, b: real, y: real, eb: real, d: real, r: real, z: real, k: real)
    requires Abs(a - x) <= ea && Abs(b - y) <= eb && d > 0.0 && Splits(x, y, z, d)
    requires OffBy(r, d, a, b, k)
    ensures Abs(r - z) <= k + Inherited(a, ea, y, eb, d)
  {
    hide OffBy, Splits;
    ProductSpread(a, b, x, y, ea, eb);
    QuotientWindow(r, d, a, b, k, x, y, z, Abs(a) * eb + ea * Abs(y));
  }

  /**
   A kernel product with an error of at most k units represents the real product: its error
   is k plus what it inherits from the operands.
   */
  lemma ProductRefines(a: int, p: nat, x: real, ea: real, b: int, s: nat, y: real, eb: real, q: nat, r: int, k: real)
    requires Represents(a, p, x, ea) && Represents(b, s, y, eb) && q <= p + s
    requires OffBy(r as real, Exp2(q), a as real, b as real, k)
    ensures Represents(r, p + s - q, FloatMult(x, y), k + Inherited(a as real, ea, Scaled(y, s), eb, Exp2(q)))
  {
    hide Splits, OffBy, Inherited, Scaled, Exp2, FloatMult;
    ScaledProduct(x, p, y, s, q);
    ProductOfReals(a as real, Scaled(x, p), ea, b as real, Scaled(y, s), eb, Exp2(q), r as real,
                   Scaled(FloatMult(x, y), p + s - q), k);
  }

  lemma CastProduct(a: int, b: int)
    ensures (a * b) as real == a as real * b as real
  {
  }

  /** Error of a single product, in units of the last place. */
  function Units(m: Mult): real {
    if Rounds(m) then 0.5 else 1.0
  }

  lemma TermError(m: Mult, o: Operands, p: int)
    requires TermFits(m, o, p)
    ensures OffBy(p as real, Exp2(Scale(m)), o.a as real, o.b as real, Units(m))
  {
    hide Pow2, MaxLoss, MaxGain, Units;
    HalfUnits(m);
    CastProduct(o.a, o.b);
    RealError(p, Pow2(Scale(m)), o.a * o.b, MaxGain(m), MaxLoss(m), Units(m) * Exp2(Scale(m)));
  }

  lemma RealError(p: int, d: int, n: int, gain: int, loss: int, w: real)
    requires -gain <= n - d * p <= loss && loss as real <= w && gain as real <= w
    ensures Abs(p as real * d as real - n as real) <= w
  {
    CastProduct(d, p);
    assert (n - d * p) as real == n as real - (d * p) as real;
  }

  /** The two bounds on one product's error, in real units of the last place. */
  lemma HalfUnits(m: Mult)
    ensures MaxLoss(m) as real <= Units(m) * Exp2(Scale(m)) && MaxGain(m) as real <= Units(m) * Exp2(Scale(m))
  {
    hide Pow2, Scale;
    Pow2Doubles(Scale(m));
  }

  /** Every product of the kernel refines the float build's product. */
  lemma MultRefinesFloat(m: Mult, o: Operands, p: nat, x: real, ea: real, s: nat, y: real, eb: real)
    requires Suits(m, o) && Scale(m) <= p + s && Represents(o.a, p, x, ea) && Represents(o.b, s, y, eb)
    ensures MultValue(m, o).Some?
    ensures Represents(MultValue(m, o).value, p + s - Scale(m), FloatMult(x, y),
        Units(m) + Inherited(o.a as real, ea, Scaled(y, s), eb, Exp2(Scale(m))))
  {
    hide OffBy, Inherited, Scaled, Exp2, MultValue, TermFits, Suits, Units, FloatMult;
    var t := SuitableTerm(m, o);
    TermError(m, o, t);
    ProductRefines(o.a, p, x, ea, o.b, s, y, eb, Scale(m), t, Units(m));
  }

  /** One multiply-accumulate refines `c + a*b` of the float build. */
  lemma MacRefinesFloat(m: Mult, c: int, z: real, ec: real, o: Operands, p: nat, x: real, ea: real, s: nat, y: real, eb: real)
    requires Suits(m, o) && MacStep(m, c, o).Some? && Scale(m) <= p + s
    requires Represents(o.a, p, x, ea) && Represents(o.b, s, y, eb) && Represents(c, p + s - Scale(m), z, ec)
    ensures Represents(MacStep(m, c, o).value, p + s - Scale(m), FloatMac(z, x, y),
        ec + (Units(m) + Inherited(o.a as real, ea, Scaled(y, s), eb, Exp2(Scale(m)))))
  {
    hide OffBy, Inherited, Scaled, Exp2, MultValue, Suits, Units, FloatMult;
    MultRefinesFloat(m, o, p, x, ea, s, y, eb);
    var t := MultValue(m, o).value;
    SumRefines(c, z, ec, t, FloatMult(x, y), Units(m) + Inherited(o.a as real, ea, Scaled(y, s), eb, Exp2(Scale(m))), p + s - Scale(m));
  }

  lemma SumRefines(c: int, z: real, ec: real, t: int, w: real, et: real, q: nat)
    requires Represents(c, q, z, ec) && Represents(t, q, w, et)
    ensures Represents(c + t, q, z + w, ec + et)
  {
    ScaledSum(z, w, q);
  }

  /**
   Two stages: a product of exact operands goes through a Q15 gain g.  The first stage's
   unit arrives scaled by the gain, so the total stays within two units.
   */
  lemma TwoStages(q: QScale, a: int, p: nat, x: real, b: int, s: nat, y: real, g: int, t: nat, w: real)
    requires q <= p + s && 15 <= t + (p + s - q)
    requires Suits(Split(q), Operands(a, b)) && Mult16_32_Q(q, a, b).Some?
    requires Suits(Split(15), Operands(g, Mult16_32_Q(q, a, b).value))
    requires Represents(a, p, x, 0.0) && Represents(b, s, y, 0.0) && Represents(g, t, w, 0.0)
    ensures Mult16_32_Q(15, g, Mult16_32_Q(q, a, b).value).Some?
    ensures Represents(Mult16_32_Q(15, g, Mult16_32_Q(q, a, b).value).value, t + (p + s - q) - 15, FloatMult(w, FloatMult(x, y)), 2.0)
  {
    hide OffBy, Inherited, Scaled, Exp2, Mult16_32_Q, FloatMult;
    var r1 := SplitValue(q, a, b);
    var r2 := SplitValue(15, g, r1);
    ProductRefines(a, p, x, 0.0, b, s, y, 0.0, q, r1, 1.0);
    NothingInherited(a as real, Scaled(y, s), Exp2(q));
    ProductRefines(g, t, w, 0.0, r1, p + s - q, FloatMult(x, y), 1.0, 15, r2, 1.0);
    GainInherited(g, Scaled(FloatMult(x, y), p + s - q));
  }

  lemma NothingInherited(a: real, y: real, d: real)
    requires d > 0.0
    ensures Inherited(a, 0.0, y, 0.0, d) == 0.0
  {
  }

  lemma GainInherited(g: int, y: real)
    requires In16(g)
    ensures Inherited(g as real, 0.0, y, 1.0, Exp2(15)) <= 1.0
  {
    Pow2Values();
    assert Exp2(15) == 32768.0;
  }

  lemma SplitValue(q: QScale, a: int, b: int) returns (r: int)
    requires Suits(Split(q), Operands(a, b))
    ensures Mult16_32_Q(q, a, b) == Some(r)
    ensures OffBy(r as real, Exp2(q), a as real, b as real, 1.0)
  {
    hide OffBy, Exp2, Mult16_32_Q;
    SplitProductExact(q, a, b);
    r := a * b / Pow2(q);
    DivMod(a * b, Pow2(q));
    TermError(Split(q), Operands(a, b), r);
  }

  // ---- whole runs ----------------------------------------------------------------------

  /** The real operands of one step, and how far the integers for them may be off. */
  datatype Approx = Approx(x: real, ea: real, y: real, eb: real)

  predicate Stands(o: Operands, r: Approx, p: nat, u: nat) {
    Represents(o.a, p, r.x, r.ea) && Represents(o.b, u, r.y, r.eb)
  }

  /** The float build's run over the same operands. */
  function FloatRun(z: real, t: seq<Approx>): real {
    if t == [] then z else FloatMac(FloatRun(z, t[..|t| - 1]), t[|t| - 1].x, t[|t| - 1].y)
  }

  /** What one step adds to the error: its own rounding, and what it inherits. */
  function StepError(m: Mult, o: Operands, r: Approx, u: nat): real {
    Units(m) + Inherited(o.a as real, r.ea, Scaled(r.y, u), r.eb, Exp2(Scale(m)))
  }

  function RunError(m: Mult, s: seq<Operands>, t: seq<Approx>, u: nat): real
    requires |s| == |t|
  {
    if s == [] then 0.0
    else RunError(m, s[..|s| - 1], t[..|s| - 1], u) + StepError(m, s[|s| - 1], t[|s| - 1], u)
  }

  /**
   A run of the kernel refines the float build's run over the same operands: the error of
   the start value, and what each step rounds off and inherits, add up and nothing more.
   */
  lemma {:induction false} MacRunRefinesFloat(m: Mult, c: int, z: real, ec: real, s: seq<Operands>, t: seq<Approx>, p: nat, u: nat)
    requires |s| == |t| && Scale(m) <= p + u
    requires forall i :: 0 <= i < |s| ==> Suits(m, s[i]) && Stands(s[i], t[i], p, u)
    requires MacRun(m, c, s).Some? && Represents(c, p + u - Scale(m), z, ec)
    ensures Represents(MacRun(m, c, s).value, p + u - Scale(m), FloatRun(z, t), ec + RunError(m, s, t, u))
    decreases |s|
  {
    hide MacStep, Exp2, Scaled, Units, Inherited, Suits, Represents, FloatMac;
    if s != [] {
      var n := |s| - 1;
      MacRunRefinesFloat(m, c, z, ec, s[..n], t[..n], p, u);
      var before := MacRun(m, c, s[..n]).value;
      assert Stands(s[n], t[n], p, u);
      MacRefinesFloat(m, before, FloatRun(z, t[..n]), ec + RunError(m, s[..n], t[..n], u), s[n], p, t[n].x, t[n].ea, u, t[n].y, t[n].eb);
    }
  }

  lemma {:induction false} ExactOperands(m: Mult, s: seq<Operands>, t: seq<Approx>, u: nat)
    requires |s| == |t| && forall i :: 0 <= i < |t| ==> t[i].ea == 0.0 == t[i].eb
    ensures RunError(m, s, t, u) == (|s| as real) * Units(m)
    decreases |s|
  {
    hide Exp2, Scaled, Units, Inherited;
    if s != [] {
      var n := |s| - 1;
      ExactOperands(m, s[..n], t[..n], u);
      NothingInherited(s[n].a as real, Scaled(t[n].y, u), Exp2(Scale(m)));
      RealDistributes(n as real, 1.0, Units(m));
    }
  }

  /** Over n exactly represented operands a run is off by at most n units, n/2 when it rounds. */
  lemma ExactRunRefinesFloat(m: Mult, c: int, z: real, s: seq<Operands>, t: seq<Approx>, p: nat, u: nat)
    requires |s| == |t| && Scale(m) <= p + u
    requires forall i :: 0 <= i < |s| ==> Suits(m, s[i]) && Stands(s[i], t[i], p, u) && t[i].ea == 0.0 == t[i].eb
    requires MacRun(m, c, s).Some? && Represents(c, p + u - Scale(m), z, 0.0)
    ensures Represents(MacRun(m, c, s).value, p + u - Scale(m), FloatRun(z, t), (|s| as real) * Units(m))
  {
    hide MacRun, Exp2, Scaled, Units, Inherited, Suits, Represents, Stands, FloatRun, RunError;
    MacRunRefinesFloat(m, c, z, 0.0, s, t, p, u);
    ExactOperands(m, s, t, u);
  }
}
