/**
  The closed-form formulas of the single-point-source method (OND-86,
  section 2), the regime selectors that choose between them, and the
  properties of both. Every formula that the calculator stores is rounded
  with `Round3`; the roots it needs are supplied as a `Roots` value.
 */
module Formulas {
  import opened Rounding

  /** The square and cube roots the formulas use (Python's `x ** (1.0/2)` and `x ** (1.0/3)`). */
  datatype Roots = Roots(sqrt: real -> real, cbrt: real -> real)
  {
    /** Roots of nonnegative numbers are nonnegative, and positive for positive numbers. */
    ghost predicate Valid() {
      && (forall x :: 0.0 <= x ==> 0.0 <= sqrt(x) && (0.0 < x ==> 0.0 < sqrt(x)))
      && (forall x :: 0.0 <= x ==> 0.0 <= cbrt(x) && (0.0 < x ==> 0.0 < cbrt(x)))
    }
  }

  /** x², Python's `x ** 2`. */
  function Sq(x: real): real { x * x }

  /** x³, Python's `x ** 3`. */
  function Cube(x: real): real { x * x * x }

  function Min(x: real, y: real): real { if x <= y then x else y }
  function Max(x: real, y: real): real { if x <= y then y else x }

  /** Python truthiness of an optional number: absent or zero counts as false. */
  predicate Truthy(o: Option<real>) { o.Some? && o.value != 0.0 }

  datatype Option<T> = None | Some(value: T)

  // ---------------------------------------------------------------- construction

  /** Temperature excess of the gas over the air, clamped at zero: the least nonnegative value not below Tg - Tv. */
  function Excess(tg: real, tv: real): (dT: real)
    ensures 0.0 <= dT && tg - tv <= dT
    ensures dT == 0.0 || dT == tg - tv
  {
    if tg - tv < 0.0 then 0.0 else tg - tv
  }

  /** V1 = 0.785 · W0 · D², the flow through a round mouth. */
  function FlowFromVelocity(w0: real, d: real): real {
    Round3(0.785 * w0 * Sq(d))
  }

  /** W0 = 4 · V1 / (3.14 · D²); a zero diameter gives 0 instead of a division by zero. */
  function VelocityFromFlow(v1: real, d: real): real {
    if 3.14 * Sq(d) == 0.0 then 0.0 else Round3(4.0 * v1 / (3.14 * Sq(d)))
  }

  /** Equivalent diameter of a rectangular L × b mouth: 2 · L · b / (L + b). */
  function EquivalentDiameterOf(l: real, b: real): real
    requires l + b != 0.0
  {
    Round3(2.0 * l * b / (l + b))
  }

  /** Exit velocity through a rectangular mouth: V1 / (L · b). */
  function RectVelocityOf(v1: real, l: real, b: real): real
    requires l * b != 0.0
  {
    Round3(v1 / (l * b))
  }

  /** Flow through the equivalent round mouth: 3.14 · D² / 4 · W0. */
  function RectFlowOf(d: real, w0: real): real {
    Round3(3.14 * Sq(d) / 4.0 * w0)
  }

  /** Deriving V1 from W0 and then W0 back from that V1 returns W0 up to the two roundings. */
  lemma FlowVelocityRoundTrip(w0: real, d: real)
    requires d != 0.0
    ensures 0.0 < 3.14 * Sq(d)
    ensures var back := VelocityFromFlow(FlowFromVelocity(w0, d), d);
      -0.0005 - 0.002 / (3.14 * Sq(d)) < back - w0 <= 0.0005 + 0.002 / (3.14 * Sq(d))
  {
    AreaPositive(d);
    ScaleIdentity(w0, d);
    QuotientError(w0, 3.14 * Sq(d), 0.785 * w0 * Sq(d));
  }

  lemma AreaPositive(d: real)
    requires d != 0.0
    ensures 0.0 < 3.14 * Sq(d)
  {
    SquarePositive(d);
  }

  lemma ScaleIdentity(w0: real, d: real)
    ensures 4.0 * (0.785 * w0 * Sq(d)) == w0 * (3.14 * Sq(d))
  {
  }

  /** If 4 · x = w0 · s, then 4 · Round3(x) / s is within 0.002 / s of w0. */
  lemma QuotientError(w0: real, s: real, x: real)
    requires 0.0 < s && 4.0 * x == w0 * s
    ensures -0.002 / s < 4.0 * Round3(x) / s - w0 <= 0.002 / s
  {
    var e1 := Round3(x) - x;
    assert 4.0 * Round3(x) == w0 * s + 4.0 * e1;
    SplitQuotient(w0, 4.0 * e1, s);
    DivideMonotone(4.0 * e1, 0.002, s);
    DivideStrictMonotone(-0.002, 4.0 * e1, s);
  }

  lemma SplitQuotient(w: real, e: real, s: real)
    requires s != 0.0
    ensures (w * s + e) / s == w + e / s
  {
    assert (w + e / s) * s == w * s + e;
  }

  lemma SquarePositive(d: real)
    requires d != 0.0
    ensures 0.0 < Sq(d)
  {
    if 0.0 < d {
      ProductPositive(d, d);
      assert Sq(d) == Product(d, d);
    } else {
      ProductPositive(-d, -d);
      assert Sq(d) == Product(-d, -d);
    }
  }

  /** x · y, kept behind a function so that facts about it are not rewritten away. */
  ghost function Product(x: real, y: real): real { x * y }

  lemma ProductPositive(x: real, y: real)
    requires 0.0 < x && 0.0 < y
    ensures 0.0 < Product(x, y)
  {
  }

  lemma PositiveProduct(x: real, y: real)
    requires 0.0 < x && 0.0 < y
    ensures 0.0 < x * y
  {
  }

  lemma DivideMonotone(x: real, y: real, s: real)
    requires 0.0 < s && x <= y
    ensures x / s <= y / s
  {
    assert y / s - x / s == (y - x) / s;
  }

  lemma DivideStrictMonotone(x: real, y: real, s: real)
    requires 0.0 < s && x < y
    ensures x / s < y / s
  {
    assert y / s - x / s == (y - x) / s;
  }

  /** The equivalent diameter of a rectangle lies between its sides (up to rounding): it is their harmonic mean. */
  lemma EquivalentDiameterBetweenSides(l: real, b: real)
    requires 0.0 < l && 0.0 < b
    ensures Min(l, b) - 0.0005 < EquivalentDiameterOf(l, b) <= Max(l, b) + 0.0005
  {
    HarmonicMeanBetween(l, b);
  }

  /** 2 · L · b / (L + b) lies between L and b. */
  lemma HarmonicMeanBetween(l: real, b: real)
    requires 0.0 < l && 0.0 < b
    ensures Min(l, b) <= 2.0 * l * b / (l + b) <= Max(l, b)
  {
    DivMul(2.0 * l * b, l + b);
    HarmonicBounds(l, b);
    BetweenByScaling(Min(l, b), Max(l, b), 2.0 * l * b / (l + b), l + b, 2.0 * l * b);
  }

  /** min(L, b) · (L + b) ≤ 2 · L · b ≤ max(L, b) · (L + b). */
  lemma HarmonicBounds(l: real, b: real)
    requires 0.0 < l && 0.0 < b
    ensures Min(l, b) * (l + b) <= 2.0 * l * b <= Max(l, b) * (l + b)
  {
    if l <= b {
      assert l * l <= l * b;
      assert l * b <= b * b;
    } else {
      assert b * b <= l * b;
      assert l * b <= l * l;
    }
  }

  lemma DivMul(x: real, y: real)
    requires y != 0.0
    ensures x / y * y == x
  {
  }

  lemma BetweenByScaling(lo: real, hi: real, h: real, s: real, t: real)
    requires 0.0 < s && h * s == t && lo * s <= t <= hi * s
    ensures lo <= h <= hi
  {
  }

  /** A square mouth of side a has equivalent diameter a (rounded). */
  lemma SquareMouthDiameter(a: real)
    requires a != 0.0
    ensures EquivalentDiameterOf(a, a) == Round3(a)
  {
    HarmonicOfEqual(a);
  }

  lemma HarmonicOfEqual(l: real)
    requires l != 0.0
    ensures 2.0 * l * l / (l + l) == l
  {
    assert (l + l) * l == 2.0 * l * l;
  }

  /** The rectangular recomputation of V1 is the round-mouth flow formula applied to the equivalent diameter. */
  lemma RectFlowIsRoundFlow(d: real, w0: real)
    ensures RectFlowOf(d, w0) == FlowFromVelocity(w0, d)
  {
    assert 3.14 * Sq(d) / 4.0 * w0 == 0.785 * w0 * Sq(d);
  }

  // ---------------------------------------------------------------- parameters stage

  /** f = 1000 · W0² · D / (H² · ΔT). */
  function BuoyancyOf(w0: real, d: real, h: real, dT: real): real
    requires h != 0.0 && dT != 0.0
  {
    SquarePositive(h);
    Round3(1000.0 * (Sq(w0) * d) / (Sq(h) * dT))
  }

  /** Vm = 0.65 · ∛(V1 · ΔT / H). */
  function VmOf(roots: Roots, v1: real, dT: real, h: real): real
    requires h != 0.0
  {
    Round3(0.65 * roots.cbrt(v1 * dT / h))
  }

  /** Vm' = 1.3 · W0 · D / H. */
  function VmlOf(w0: real, d: real, h: real): real
    requires h != 0.0
  {
    Round3(1.3 * (w0 * d) / h)
  }

  /** fe = 800 · (Vm')³. */
  function FeOf(vml: real): real {
    Round3(800.0 * Cube(vml))
  }

  /**
    For a physical stack (nonnegative W0, D and V1, positive H and ΔT) every
    parameter is nonnegative, so the later stages never take a root of a
    negative number.
   */
  lemma PhysicalParametersInDomain(roots: Roots, w0: real, d: real, h: real, dT: real, v1: real)
    requires roots.Valid() && 0.0 <= w0 && 0.0 <= d && 0.0 < h && 0.0 < dT && 0.0 <= v1
    ensures var f, vml := BuoyancyOf(w0, d, h, dT), VmlOf(w0, d, h);
            var fe, vm := FeOf(vml), VmOf(roots, v1, dT, h);
            && 0.0 <= f && 0.0 <= vml && 0.0 <= fe && 0.0 <= vm
            && MDomain(f, fe) && VmDistanceDomain(vm, f, fe)
  {
    SquarePositive(h);
    PositiveProduct(Sq(h), dT);
    NonNegProduct(w0, w0);
    NonNegProduct(Sq(w0), d);
    NonNegQuotient(1000.0 * (Sq(w0) * d), Sq(h) * dT);
    Round3NonNegative(1000.0 * (Sq(w0) * d) / (Sq(h) * dT));
    NonNegProduct(w0, d);
    NonNegQuotient(1.3 * (w0 * d), h);
    Round3NonNegative(1.3 * (w0 * d) / h);
    var vml := VmlOf(w0, d, h);
    NonNegProduct(vml, vml);
    NonNegProduct(vml * vml, vml);
    Round3NonNegative(800.0 * Cube(vml));
    NonNegProduct(v1, dT);
    NonNegQuotient(v1 * dT, h);
    Round3NonNegative(0.65 * roots.cbrt(v1 * dT / h));
  }

  lemma NonNegQuotient(x: real, y: real)
    requires 0.0 <= x && 0.0 < y
    ensures 0.0 <= x / y
  {
    assert x / y * y == x;
  }

  // ---------------------------------------------------------------- coefficient m

  /** The three formulas for m, in the order the source tests them. */
  datatype MRegime = MFromFe | MFromF | MLargeF

  /** Ordered choice: fe < f < 100, else f < 100, else the rest; each regime described without the order. */
  function MRegimeOf(f: real, fe: real): (r: MRegime)
    ensures r == MFromFe <==> fe < f < 100.0
    ensures r == MFromF <==> f < 100.0 && f <= fe
    ensures r == MLargeF <==> 100.0 <= f
  {
    if fe < f < 100.0 then MFromFe
    else if f < 100.0 then MFromF
    else MLargeF
  }

  /** m = 1 / (0.67 + 0.1 · √x + 0.34 · ∛x). */
  function MomentumSmallF(roots: Roots, x: real): (m: real)
    requires roots.Valid() && 0.0 <= x
    ensures 0.0 <= m <= 1.493
  {
    var den := 0.67 + 0.1 * roots.sqrt(x) + 0.34 * roots.cbrt(x);
    assert 0.67 <= den;
    InverseBound(den);
    Round3Monotone(1.0 / den, 1.0 / 0.67);
    Round3NonNegative(1.0 / den);
    Round3(1.0 / den)
  }

  lemma InverseBound(den: real)
    requires 0.67 <= den
    ensures 0.0 < 1.0 / den <= 1.0 / 0.67
  {
    var q := 1.0 / den;
    assert q * den == 1.0;
    assert 0.0 < q;
    assert q * 0.67 <= q * den;
    assert q == q * 0.67 / 0.67;
  }

  /** m = 1.47 / ∛f, for f ≥ 100. */
  function MomentumLargeF(roots: Roots, f: real): (m: real)
    requires roots.Valid() && 100.0 <= f
    ensures 0.0 <= m
  {
    assert 0.0 < roots.cbrt(f);
    Round3NonNegative(1.47 / roots.cbrt(f));
    Round3(1.47 / roots.cbrt(f))
  }

  /** The source fails (a complex root) unless the value the chosen formula takes a root of is nonnegative. */
  predicate MDomain(f: real, fe: real) {
    f < 100.0 ==> 0.0 <= Min(f, fe)
  }

  /** Coefficient m; below f = 100 it is the small-f formula at the smaller of f and fe. */
  function MCoefOf(roots: Roots, f: real, fe: real): (m: real)
    requires roots.Valid() && MDomain(f, fe)
    ensures f < 100.0 ==> m == MomentumSmallF(roots, Min(f, fe))
    ensures 0.0 <= m
    ensures f < 100.0 ==> m <= 1.493
  {
    match MRegimeOf(f, fe)
    case MFromFe => MomentumSmallF(roots, fe)
    case MFromF => MomentumSmallF(roots, f)
    case MLargeF => MomentumLargeF(roots, f)
  }

  // ---------------------------------------------------------------- coefficient n

  /** The three formulas for n: V ≥ 2, 0.5 ≤ V < 2, V < 0.5. */
  datatype NRegime = NHigh | NMid | NLow

  /** The three guards of the source cover every real number, so the last case is never left out. */
  function NRegimeOf(v: real): (r: NRegime)
    ensures r == NHigh <==> 2.0 <= v
    ensures r == NMid <==> 0.5 <= v < 2.0
    ensures r == NLow <==> v < 0.5
  {
    if v >= 2.0 then NHigh
    else if 0.5 <= v < 2.0 then NMid
    else if v < 0.5 then NLow
    else assert false; NLow
  }

  /** n = 0.532 · V² − 2.13 · V + 3.13. */
  function WindMid(v: real): real {
    Round3(0.532 * Sq(v) - 2.13 * v + 3.13)
  }

  /** n = 4.4 · V. */
  function WindLow(v: real): real {
    Round3(4.4 * v)
  }

  function NCoefOf(v: real): real {
    match NRegimeOf(v)
    case NHigh => 1.0
    case NMid => WindMid(v)
    case NLow => WindLow(v)
  }

  /** For a nonnegative reference velocity, n lies in [0, 2.2]. */
  lemma WindCoefBounds(v: real)
    requires 0.0 <= v
    ensures 0.0 <= NCoefOf(v) <= 2.2
  {
    match NRegimeOf(v)
    case NHigh =>
    case NMid =>
      var q := 0.532 * Sq(v) - 2.13 * v + 3.13;
      QuadraticMidBounds(v);
      Round3Monotone(q, 2.198);
      Round3OnGrid(2198);
      Round3NonNegative(q);
    case NLow =>
      Round3Monotone(4.4 * v, 2.2);
      Round3OnGrid(2200);
      Round3NonNegative(4.4 * v);
  }

  /** On [0.5, 2) the middle formula stays within [0, 2.198]: it decreases from 2.198 and stays above 0.998. */
  lemma QuadraticMidBounds(v: real)
    requires 0.5 <= v < 2.0
    ensures 0.0 <= 0.532 * Sq(v) - 2.13 * v + 3.13 <= 2.198
  {
    QuadraticIdentities(v);
    NonNegProduct(v - 0.5, 2.13 - 0.532 * (v + 0.5));
    NonNegProduct(v - 2.0, v - 2.0);
  }

  lemma QuadraticIdentities(v: real)
    ensures 0.532 * Sq(v) - 2.13 * v + 3.13 == 2.198 - (v - 0.5) * (2.13 - 0.532 * (v + 0.5))
    ensures 0.532 * Sq(v) - 2.13 * v + 3.13 == 0.532 * ((v - 2.0) * (v - 2.0)) - 0.002 * (v - 2.0) + 0.998
  {
  }

  lemma NonNegProduct(x: real, y: real)
    requires (0.0 <= x && 0.0 <= y) || (x <= 0.0 && y <= 0.0)
    ensures 0.0 <= x * y
  {
  }

  /** At the thresholds: V = 0.5 takes the middle formula (n = 2.198), V = 2 the upper one (n = 1). */
  lemma WindCoefAtThresholds()
    ensures NRegimeOf(0.5) == NMid && NCoefOf(0.5) == 2.198
    ensures NRegimeOf(2.0) == NHigh && NCoefOf(2.0) == 1.0
  {
    Round3OnGrid(2198);
  }

  /** n = 1 does not identify the upper regime: V = 1.94 is in the middle one and also rounds to n = 1. */
  lemma WindCoefOneInMiddleRegime()
    ensures NRegimeOf(1.94) == NMid && NCoefOf(1.94) == 1.0
  {
    assert 0.532 * 1.94 * 1.94 - 2.13 * 1.94 + 3.13 == 1.0000352;
    assert (1.0000352 * 1000.0 + 0.5).Floor == 1000;
  }

  /**
    The guards compare the stored, rounded velocity: V = 1.9996 lies below 2,
    but its rounded value 2.0 takes the upper branch.
   */
  lemma WindRegimeOfRoundedVelocity()
    ensures 1.9996 < 2.0 && NRegimeOf(1.9996) == NMid
    ensures Round3(1.9996) == 2.0 && NRegimeOf(Round3(1.9996)) == NHigh
  {
    Round3Is(1.9996, 2000);
  }

  // ---------------------------------------------------------------- maximum concentration

  /** H^(4/3), written as H · ∛H. */
  function Pow43(roots: Roots, h: real): real {
    h * roots.cbrt(h)
  }

  /** K = D / (8 · V1). */
  function KOf(d: real, v1: real): real
    requires v1 != 0.0
  {
    Round3(d / (8.0 * v1))
  }

  /** Cold source: A · M · F · n · η / H^(4/3) · K, before rounding. */
  function CmColdExact(roots: Roots, a: real, mm: real, ff: real, n: real, nu: real, h: real, k: real): real
    requires roots.Valid() && 0.0 < h
  {
    assert 0.0 < Pow43(roots, h);
    (a * mm * ff * n * nu) / Pow43(roots, h) * k
  }

  /** Hot source: A · M · F · m · n · η / (H² · ∛(V1 · ΔT)), before rounding. */
  function CmHotExact(roots: Roots, a: real, mm: real, ff: real, m: real, n: real, nu: real,
                      h: real, v1: real, dT: real): real
    requires roots.Valid() && h != 0.0 && 0.0 < v1 * dT
  {
    assert 0.0 < roots.cbrt(v1 * dT);
    SquarePositive(h);
    PositiveProduct(Sq(h), roots.cbrt(v1 * dT));
    (a * mm * ff * m * n * nu) / (Sq(h) * roots.cbrt(v1 * dT))
  }

  /** The source evaluates Cm only for a positive H (cold), or with m, a nonzero H and a positive V1 · ΔT (hot). */
  predicate ConcentrationDomain(cold: bool, h: real, v1: real, dT: real, m: Option<real>) {
    if cold then 0.0 < h else m.Some? && h != 0.0 && 0.0 < v1 * dT
  }

  /** The stored Cm: the cold or the hot formula, rounded. */
  function ConcentrationOf(roots: Roots, cold: bool, a: real, mm: real, ff: real, m: Option<real>, n: real,
                           nu: real, h: real, v1: real, dT: real, k: real): real
    requires roots.Valid() && ConcentrationDomain(cold, h, v1, dT, m)
  {
    if cold then Round3(CmColdExact(roots, a, mm, ff, n, nu, h, k))
    else Round3(CmHotExact(roots, a, mm, ff, m.value, n, nu, h, v1, dT))
  }

  // ---------------------------------------------------------------- distance to the maximum

  /** The three distance formulas: V ≤ 0.5, 0.5 < V ≤ 2, V > 2. */
  datatype DRegime = DLow | DMid | DHigh

  /** The three guards of the source cover every real number. */
  function DRegimeOf(v: real): (r: DRegime)
    ensures r == DLow <==> v <= 0.5
    ensures r == DMid <==> 0.5 < v <= 2.0
    ensures r == DHigh <==> 2.0 < v
  {
    if v <= 0.5 then DLow
    else if 0.5 < v <= 2.0 then DMid
    else if v > 2.0 then DHigh
    else assert false; DHigh
  }

  /** The Vm'-based coefficient d is used for a cold source or when f > 100. */
  predicate UsesVmlDistance(cold: bool, f: real) {
    cold || f > 100.0
  }

  /** d from Vm': 5.7, 11.4 · Vm', 16 · √Vm'. */
  function VmlDistanceCoef(roots: Roots, vml: real): real {
    match DRegimeOf(vml)
    case DLow => 5.7
    case DMid => 11.4 * vml
    case DHigh => 16.0 * roots.sqrt(vml)
  }

  /** The source fails (a complex root) unless the value the chosen Vm formula takes a cube root of is nonnegative. */
  predicate VmDistanceDomain(vm: real, f: real, fe: real) {
    (vm <= 0.5 ==> 0.0 <= fe) && (0.5 < vm ==> 0.0 <= f)
  }

  /** d from Vm: 2.48 · (1 + 0.28 · ∛fe), 4.95 · Vm · (1 + 0.28 · ∛f), 7 · √Vm · (1 + 0.28 · ∛f). */
  function VmDistanceCoef(roots: Roots, vm: real, f: real, fe: real): real {
    match DRegimeOf(vm)
    case DLow => 2.48 * (1.0 + 0.28 * roots.cbrt(fe))
    case DMid => 4.95 * vm * (1.0 + 0.28 * roots.cbrt(f))
    case DHigh => 7.0 * roots.sqrt(vm) * (1.0 + 0.28 * roots.cbrt(f))
  }

  /** Xm = (5 − F) / 4 · H · d. */
  function XmOf(ff: real, h: real, d: real): real {
    Round3((5.0 - ff) / 4.0 * h * d)
  }

  /** At f = 100 a hot source takes the f ≥ 100 formula for m but the Vm-based formula for d. */
  lemma HundredBoundary(fe: real)
    ensures MRegimeOf(100.0, fe) == MLargeF
    ensures !UsesVmlDistance(false, 100.0)
  {
  }

  // ---------------------------------------------------------------- maximum permissible emission

  /** Cold source: (ПДК − Cf) · H^(4/3) · 8 · V1 / (A · F · n · η · D), before rounding. */
  function PdvColdExact(roots: Roots, pdk: real, cf: real, h: real, v1: real,
                        a: real, ff: real, n: real, nu: real, d: real): real
    requires a * ff * n * nu * d != 0.0
  {
    ((pdk - cf) * Pow43(roots, h) * 8.0 * v1) / (a * ff * n * nu * d)
  }

  /** Hot source: (ПДК − Cf) · H² · ∛(V1 · ΔT) / (A · F · m · n · η), before rounding. */
  function PdvHotExact(roots: Roots, pdk: real, cf: real, h: real, v1: real, dT: real,
                       a: real, ff: real, m: real, n: real, nu: real): real
    requires a * ff * m * n * nu != 0.0
  {
    ((pdk - cf) * Sq(h) * roots.cbrt(v1 * dT)) / (a * ff * m * n * nu)
  }

  /** The source evaluates the permissible emission only with a nonzero divisor and no negative root argument. */
  predicate EmissionDomain(cold: bool, h: real, v1: real, dT: real, a: real, ff: real, m: Option<real>,
                           n: real, nu: real, d: real) {
    if cold then 0.0 <= h && a * ff * n * nu * d != 0.0
    else m.Some? && a * ff * m.value * n * nu != 0.0 && 0.0 <= v1 * dT
  }

  /** The stored permissible emission: the cold or the hot formula, rounded. */
  function EmissionOf(roots: Roots, cold: bool, pdk: real, cf: real, h: real, v1: real, dT: real,
                      a: real, ff: real, m: Option<real>, n: real, nu: real, d: real): real
    requires EmissionDomain(cold, h, v1, dT, a, ff, m, n, nu, d)
  {
    if cold then Round3(PdvColdExact(roots, pdk, cf, h, v1, a, ff, n, nu, d))
    else Round3(PdvHotExact(roots, pdk, cf, h, v1, dT, a, ff, m.value, n, nu))
  }

  /** Hot source: emitting exactly the permissible amount raises the maximum concentration to ПДК − Cf. */
  lemma PdvHotIsConcentrationInverse(roots: Roots, pdk: real, cf: real, h: real, v1: real,
                                      dT: real, a: real, ff: real, m: real, n: real, nu: real)
    requires roots.Valid() && h != 0.0 && 0.0 < v1 * dT && a * ff * m * n * nu != 0.0
    ensures CmHotExact(roots, a, PdvHotExact(roots, pdk, cf, h, v1, dT, a, ff, m, n, nu), ff, m, n, nu, h, v1, dT)
            == pdk - cf
  {
    assert 0.0 < roots.cbrt(v1 * dT);
    SquarePositive(h);
    PositiveProduct(Sq(h), roots.cbrt(v1 * dT));
    Rearrange6(a, PdvHotExact(roots, pdk, cf, h, v1, dT, a, ff, m, n, nu), ff, m, n, nu);
    CancelQuotient(pdk - cf, Sq(h), roots.cbrt(v1 * dT), a * ff * m * n * nu);
  }

  lemma Rearrange6(a: real, mm: real, ff: real, m: real, n: real, nu: real)
    ensures a * mm * ff * m * n * nu == mm * (a * ff * m * n * nu)
  {
  }

  /** (p · y · c / x) · x / (y · c) == p. */
  lemma CancelQuotient(p: real, y: real, c: real, x: real)
    requires x != 0.0 && y * c != 0.0
    ensures (p * y * c / x) * x / (y * c) == p
  {
    assert (p * y * c / x) * x == p * (y * c);
  }

  /**
    Hot source, with the stored (rounded) emission: the concentration it
    produces misses ПДК − Cf by exactly the rounding error of the emission
    scaled by A · F · m · n · η / (H² · ∛(V1 · ΔT)), so by at most 0.0005 of
    that factor when it is positive.
   */
  lemma PdvHotRoundedError(roots: Roots, pdk: real, cf: real, h: real, v1: real,
                           dT: real, a: real, ff: real, m: real, n: real, nu: real)
    requires roots.Valid() && h != 0.0 && 0.0 < v1 * dT && a * ff * m * n * nu != 0.0
    ensures var p := PdvHotExact(roots, pdk, cf, h, v1, dT, a, ff, m, n, nu);
            var x, y := a * ff * m * n * nu, Sq(h) * roots.cbrt(v1 * dT);
            var err := CmHotExact(roots, a, Round3(p), ff, m, n, nu, h, v1, dT) - (pdk - cf);
            && 0.0 < y
            && err == (Round3(p) - p) * x / y
            && (0.0 < x ==> -0.0005 * x / y < err <= 0.0005 * x / y)
  {
    var p := PdvHotExact(roots, pdk, cf, h, v1, dT, a, ff, m, n, nu);
    var x, y := a * ff * m * n * nu, Sq(h) * roots.cbrt(v1 * dT);
    assert 0.0 < roots.cbrt(v1 * dT);
    SquarePositive(h);
    PositiveProduct(Sq(h), roots.cbrt(v1 * dT));
    PdvHotIsConcentrationInverse(roots, pdk, cf, h, v1, dT, a, ff, m, n, nu);
    var r := Round3(p);
    Rearrange6(a, p, ff, m, n, nu);
    Rearrange6(a, r, ff, m, n, nu);
    assert CmHotExact(roots, a, p, ff, m, n, nu, h, v1, dT) == p * x / y;
    assert CmHotExact(roots, a, r, ff, m, n, nu, h, v1, dT) == r * x / y;
    DiffQuotient(r, p, x, y);
    if 0.0 < x {
      ScaledError(r - p, x, y);
    }
  }

  /** r · x / y − p · x / y == (r − p) · x / y. */
  lemma DiffQuotient(r: real, p: real, x: real, y: real)
    requires y != 0.0
    ensures r * x / y - p * x / y == (r - p) * x / y
  {
    assert r * x - p * x == (r - p) * x;
    assert r * x / y - p * x / y == (r * x - p * x) / y;
  }

  /** An error in (−0.0005, 0.0005] scaled by x / y, for positive x and y. */
  lemma ScaledError(e: real, x: real, y: real)
    requires -0.0005 < e <= 0.0005 && 0.0 < x && 0.0 < y
    ensures -0.0005 * x / y < e * x / y <= 0.0005 * x / y
  {
    assert -0.0005 * x < e * x <= 0.0005 * x;
    DivideStrictMonotone(-0.0005 * x, e * x, y);
    DivideMonotone(e * x, 0.0005 * x, y);
  }

  /** Cold source, with K taken unrounded as D / (8 · V1): the permissible emission again gives ПДК − Cf. */
  lemma PdvColdIsConcentrationInverse(roots: Roots, pdk: real, cf: real, h: real, v1: real,
                                       a: real, ff: real, n: real, nu: real, d: real)
    requires roots.Valid() && 0.0 < h && v1 != 0.0 && a * ff * n * nu * d != 0.0
    ensures CmColdExact(roots, a, PdvColdExact(roots, pdk, cf, h, v1, a, ff, n, nu, d), ff, n, nu, h, d / (8.0 * v1))
            == pdk - cf
  {
    Pow43Positive(roots, h);
    Rearrange5(a, PdvColdExact(roots, pdk, cf, h, v1, a, ff, n, nu, d), ff, n, nu);
    ColdCancel(pdk - cf, Pow43(roots, h), v1, a * ff * n * nu, d);
  }

  lemma Pow43Positive(roots: Roots, h: real)
    requires roots.Valid() && 0.0 < h
    ensures 0.0 < Pow43(roots, h)
  {
    PositiveProduct(h, roots.cbrt(h));
  }

  lemma Rearrange5(a: real, mm: real, ff: real, n: real, nu: real)
    ensures a * mm * ff * n * nu == mm * (a * ff * n * nu)
  {
  }

  /** (q · p · 8 · v / (x · d)) · x / p · (d / (8 · v)) == q. */
  lemma ColdCancel(q: real, p: real, v: real, x: real, d: real)
    requires p != 0.0 && v != 0.0 && x * d != 0.0
    ensures (q * p * 8.0 * v) / (x * d) * x / p * (d / (8.0 * v)) == q
  {
    var t := q * p * 8.0 * v;
    assert t / (x * d) * x == t / d;
    assert t / d / p == q * 8.0 * v / d;
    assert q * 8.0 * v / d * (d / (8.0 * v)) == q;
  }
}
