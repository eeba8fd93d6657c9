# Single-source dispersion calculator (OND-86, section 2)

This project models the calculator class `Ovos` of ovosatm. The class works
out, for one stack, the maximum ground-level concentration of a pollutant,
the distance at which that maximum occurs, and the maximum permissible
emission. While it computes, it writes a worked solution (`label`) for the
student to read.

The model has three modules:

- `Rounding` (`rounding.dfy`): `Round3` is rounding to three decimals. The
  source applies it to almost every stored value. The module also proves
  that `Round3` is idempotent and monotone, and bounds its error.
- `Formulas` (`formulas.dfy`): every closed-form formula of the method.
  - It holds the regime selectors of the stages, `MRegimeOf`, `NRegimeOf`
    and `DRegimeOf`. Each is a datatype whose constructors are the source's
    branches, with an if-and-only-if description of every branch.
  - It holds the properties of the formulas. These include the flow and
    velocity round trip, the equivalent diameter lying between the sides,
    the bounds on m and n, and the fact that the permissible emission
    inverts the concentration formula.
- `Calculator` (`ovos.dfy`): the class `Ovos`.
  - Its fields are the attributes the Python object gains stage by stage.
  - An attribute that does not exist yet is `None`.
  - `label` is the field `labelSteps: seq<Step>`, one step per heading or
    formula line appended.
  - Each stage is a method. Its `modifies` names exactly the attributes the
    stage assigns. Its `ensures` gives the new value of each one, and the
    label as the old label followed by the stage's steps. So every stage
    only appends to the label.
  - `Valid()` is the class invariant:
    - ΔT ≥ 0;
    - ΔT = 0 forces a cold source;
    - f, Vm and fe exist together, only for a hot source, and only with Vm′;
    - m exists only after them.
  - `WorkedExample` is the program's `main()` scenario, with its concrete
    results.

## How the model reads the source

- **Numbers.** Python floats are modelled as `real`.
  - `round(x, 3)` is `Round3`, which rounds ties up.
  - `x ** (1.0/2)` and `x ** (1.0/3)` are the two fields of a `Roots` value.
    The constructor receives it. The model knows only that these roots are
    nonnegative on nonnegative arguments and positive on positive ones.
  - H^(4/3) is H · ∛H.
- **Absent values.** "Not given" means Python-falsy, so `None` and `0` are
  both absent (`Truthy`).
- **Failures.** Where the source would raise, the failing input is a
  precondition of the method. This covers:
  - `TypeError` on `None`;
  - a division by zero other than the one it catches;
  - a complex number from a negative base passed to `round`.
- **F, A and η.** `hasattr` on F, A and η means the first stage that sets
  them wins (`FirstWrite`).
- **Behaviours modelled as the code has them.**
  - n = 1 is not confined to the V ≥ 2 branch: V = 1.94 lies in the middle
    branch, and its n also rounds to 1 (`WindCoefOneInMiddleRegime`). At
    V = 0.5 the middle formula gives n = 2.198.
  - At f = 100 a hot source takes the f ≥ 100 formula for m, but the
    Vm-based formula for d (`HundredBoundary`).
  - The thresholds are compared with stored, rounded values, so a velocity
    just below a threshold can take the branch above it: Vm = 1.9996 is
    stored as 2.0 and gives n = 1 (`WindRegimeOfRoundedVelocity`).
  - `max_concentrate` evaluates Cm with the call's own A, M, F and η, while
    it stores F, A and η first-write-wins. `max_distance` and `pdv_func` use
    the stored values.
  - For a rectangular mouth, W0 divides the V1 argument, not the V1 derived
    just before (ovos.py:81). The label line shows the derived V1. So with a
    zero V1 and a nonzero W0, the rectangular W0 and V1 both become 0.
  - `pr = True` passed without L and b gives no outlet heading at all.
  - The one caught division by zero (D = 0 while deriving W0) gives W0 = 0.

## Model

| member | source | states |
|---|---|---|
| Rounding.Round3 | ovos.py:50 | round(x, 3) lies within half a thousandth of x and is on the 0.001 grid |
| Rounding.Round3Idempotent | ovos.py:50 | a property of round(x, 3) itself: rounding an already rounded value changes nothing (the source never rounds a value twice) |
| Rounding.Round3Monotone | ovos.py:104-117 | rounding preserves order |
| Rounding.Round3NonNegative | ovos.py:111 | rounding a nonnegative quantity never makes it negative |
| Formulas.Excess | ovos.py:42-44 | ΔT is the least nonnegative value not below Tg − Tv: it is 0 or Tg − Tv |
| Formulas.FlowVelocityRoundTrip | ovos.py:49-66 | deriving V1 from W0 and then W0 back from that V1 returns W0 up to the error of the two roundings |
| Formulas.EquivalentDiameterBetweenSides | ovos.py:77 | the equivalent diameter 2Lb/(L+b) lies between the shorter and the longer side (up to rounding) |
| Formulas.SquareMouthDiameter | ovos.py:77 | a square mouth of side a has equivalent diameter a |
| Formulas.RectFlowIsRoundFlow | ovos.py:85 | the rectangular V1 recomputation is the round-mouth flow formula of line 50 applied to the equivalent diameter |
| Formulas.PhysicalParametersInDomain | ovos.py:103-119 | for nonnegative W0, D and V1 and positive H and ΔT, f, Vm, Vm′ and fe are nonnegative, so neither m_coef nor max_distance takes a root of a negative number |
| Formulas.MRegimeOf | ovos.py:125-141 | the ordered m branches, each described without the order: fe < f < 100, f < 100 ∧ f ≤ fe, f ≥ 100, exactly one holds |
| Formulas.MomentumSmallF | ovos.py:126-136 | m = 1/(0.67 + 0.1√x + 0.34∛x) lies in [0, 1.493] |
| Formulas.MomentumLargeF | ovos.py:138 | m = 1.47/∛f is nonnegative for f ≥ 100 |
| Formulas.MCoefOf | ovos.py:125-141 | below f = 100, m is the small-f formula at min(f, fe); m is never negative and below f = 100 at most 1.493 |
| Formulas.NRegimeOf | ovos.py:152-164 | the three n guards V ≥ 2, 0.5 ≤ V < 2, V < 0.5 cover every real and exactly one holds |
| Formulas.WindCoefBounds | ovos.py:152-164 | for V ≥ 0 the coefficient n lies in [0, 2.2] |
| Formulas.WindCoefAtThresholds | ovos.py:152-157 | V = 0.5 takes the middle formula (n = 2.198) and V = 2 the upper one (n = 1) |
| Formulas.WindCoefOneInMiddleRegime | ovos.py:152-157 | n = 1 also occurs in the middle branch (V = 1.94), so n = 1 does not identify V ≥ 2 |
| Formulas.WindRegimeOfRoundedVelocity | ovos.py:107-157 | the n guards see the rounded Vm: 1.9996 lies below 2 and in the middle branch, but rounds to 2.0 and takes the upper one |
| Formulas.DRegimeOf | ovos.py:202-232 | the three d guards V ≤ 0.5, 0.5 < V ≤ 2, V > 2 cover every real and exactly one holds |
| Formulas.HundredBoundary | ovos.py:137-202 | at f = 100 m takes the f ≥ 100 formula while d takes the Vm branch (Vm′ is used only for f > 100) |
| Formulas.PdvHotIsConcentrationInverse | ovos.py:261-262 | before rounding, feeding the hot permissible emission into the hot Cm formula of line 189 gives exactly ПДК − Cf |
| Formulas.PdvHotRoundedError | ovos.py:261-262 | with the stored, rounded hot emission, Cm misses ПДК − Cf by exactly the emission's rounding error times A·F·m·n·η / (H²·∛(V1·ΔT)), so by at most 0.0005 of that factor when it is positive |
| Formulas.PdvColdIsConcentrationInverse | ovos.py:254-255 | before rounding, and with K unrounded, feeding the cold permissible emission into the cold Cm formula of line 184 gives exactly ПДК − Cf |
| Calculator.Ovos.constructor | ovos.py:40-95 | ΔT clamped, cold forced at ΔT = 0, the missing V1 or W0 derived (W0 = 0 when D = 0), a rectangular mouth replacing D, W0, V1 in that order, pr set, the derivation and outlet steps of the label, and the invariant established |
| Calculator.Ovos.Parameters | ovos.py:103-119 | Vm′ always; f, Vm and fe exactly when the source is hot; the four label steps in source order; the invariant kept |
| Calculator.Ovos.MCoef | ovos.py:125-141 | m is the formula of the first branch that holds, and the label gains that branch's step with its operand fe or f |
| Calculator.Ovos.NCoef | ovos.py:146-164 | V is Vm′ for a cold source and Vm otherwise; n is set in every case by the branch V falls in; the cold note and the branch step are appended |
| Calculator.Ovos.MaxConcentrate | ovos.py:170-193 | M overwritten, F, A, η first-write-wins, K = D/(8V1), Cm by the cold or hot formula with this call's arguments, and the steps appended |
| Calculator.Ovos.MaxDistance | ovos.py:200-236 | d from Vm′ exactly when cold or f > 100, otherwise from Vm, in the branch the velocity falls in; Xm = (5 − F)/4 · H · d with the stored F; the steps appended |
| Calculator.Ovos.PdvFunc | ovos.py:242-266 | pdk and Cf overwritten, F, A, η first-write-wins, the permissible emission from the stored values by the cold or hot formula, and its steps appended |
| Calculator.ExampleSource | ovos.py:271-275 | for the program's stack the source is cold and rectangular with D = 0.5, W0 = 3.2, V1 = 0.628, Vm′ = 0.083 and n = 0.365 |
| Calculator.ExamplePrinted | ovos.py:271-278 | when the label is printed, M = 16, F = 1, A = 160, η = 1, Cm is the cold formula with K = 0.1, and Xm = 142.5 |
| Calculator.WorkedExample | ovos.py:270-279 | the whole scenario of main(), ending with pdk = 1.5, Cf = 0.3 and the permissible emission by the cold formula |
| Calculator.ExampleValues | ovos.py:77-85 | the rounded intermediate values of the scenario: D = 0.5, W0 = 3.2, V1 = 0.628, Vm′ = 0.083, n = 0.365, K = 0.1, Xm = 142.5 |

## Left out

- Floating point: the model computes over exact reals. `Round3` rounds ties
  up, while Python's `round` works on the binary value and rounds ties to
  even. The concrete values of the worked example are exact over the reals.
- Roots: √ and ∛ are not computed. They are parameters with only sign
  properties, so no statement depends on their actual values.
- The label's text: the colour and sub/superscript markup, the Russian
  wording, and the `{:.3g}` formatting of d. Each appended line becomes one
  `Step` holding a heading or a formula, with the operands it shows and its
  result. Where the source appends a branch heading and its formula line
  separately, they are a single `Step`.
- Exceptions: the model does not raise them. Each uncaught failure is a
  precondition instead. The failures are:
  - `None` reaching arithmetic;
  - V1 = 0 in K;
  - L + b = 0 in the equivalent diameter (ovos.py:77);
  - H = 0 in f, Vm, Vm′ or Cm (ovos.py:104, 107, 111);
  - a zero divisor in the emission formulas;
  - a negative base under a root.
- Formulas.MCoefOf: bounds m only by 1.493 below f = 100. The source
  promises no tighter bound.
- Formulas.PdvColdIsConcentrationInverse: states the round trip before
  rounding, and takes K unrounded. With the rounded emission and the rounded
  K that the source stores, it holds only up to those two roundings; no
  bound on that error is proved for the cold formula.
- Formulas.PdvHotIsConcentrationInverse: states the round trip before
  rounding. With the rounded emission it holds only up to the error bounded
  by `PdvHotRoundedError`, and the rounding of Cm itself is not included.
- The `print` in `main()`.
- main.py: the Kivy screens, widgets and text-to-number parsing. They are
  interface code around the class.
