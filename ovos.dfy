/**
  The calculator object for one stack: the constructor settles the source's
  geometry and temperature regime, and each stage method fills in further
  fields and appends its steps to the worked-solution label (`labelSteps`).
 */
module Calculator {
  import opened Rounding
  import opened Formulas

  /** Section headings of the label. */
  datatype Heading =
    | RectangularOutlet(cold: bool)
    | CircularOutlet(cold: bool)
    | ColdWindNote
    | ConcentrationHeading
    | DistanceHeading
    | EmissionHeading

  /** The quantity a formula line of the label derives. */
  datatype Quantity =
    | FlowRate
    | ExitVelocity
    | EquivalentDiameter
    | RectExitVelocity
    | EquivalentFlowRate
    | Buoyancy
    | MaxVelocity
    | MaxVelocityPrime
    | BuoyancyLimit
    | Momentum(mRegime: MRegime)
    | Wind(nRegime: NRegime)
    | ColdFactor
    | Concentration(coldSource: bool)
    | DistanceCoef(fromVml: bool, dRegime: DRegime)
    | Distance
    | PermissibleEmission(coldSource: bool)

  /** One entry of the label: a heading, or a formula with the operands it displays and its result. */
  datatype Step =
    | Title(heading: Heading)
    | Formula(quantity: Quantity, operands: seq<real>, value: real)

  /** F, A and η keep the first value any stage gave them. */
  function FirstWrite(stored: Option<real>, given: real): real {
    if stored.Some? then stored.value else given
  }

  class Ovos {
    const roots: Roots
    var labelSteps: seq<Step>
    var cold: bool
    var pr: bool
    var dT: real
    var W0: real
    var V1: real
    var D: real
    var H: real
    var L: Option<real>
    var b: Option<real>
    // set by Parameters
    var f: Option<real>
    var Vm: Option<real>
    var Vml: Option<real>
    var fe: Option<real>
    // set by MCoef and NCoef
    var m: Option<real>
    var n: Option<real>
    // set by MaxConcentrate and PdvFunc
    var M: Option<real>
    var F: Option<real>
    var A: Option<real>
    var nu: Option<real>
    var Cm: Option<real>
    // set by MaxDistance
    var Xm: Option<real>
    // set by PdvFunc
    var pdk: Option<real>
    var Cf: Option<real>
    var pdv: Option<real>

    /**
      ΔT is never negative and a zero excess makes the source cold; f, Vm and
      fe appear together, only for a hot source and always with Vm'; m only
      after them.
     */
    ghost predicate Valid()
      reads this`dT, this`cold, this`f, this`Vm, this`fe, this`Vml, this`m
    {
      && roots.Valid()
      && 0.0 <= dT
      && (dT == 0.0 ==> cold)
      && (f.Some? <==> Vm.Some?)
      && (f.Some? <==> fe.Some?)
      && (f.Some? ==> !cold && Vml.Some?)
      && (m.Some? ==> f.Some?)
    }

    /**
      An absent or zero W0 (V1) is derived from the other one; a zero D makes
      the derived W0 zero. When both L and b are given, D becomes the
      equivalent diameter and W0 and V1 are recomputed from it, in that order.
     */
    constructor (roots: Roots, W0: Option<real> := None, D: real := 0.25, H: real := 30.0,
                 Tg: real := 100.0, Tv: real := 26.0, V1: Option<real> := None,
                 cold: bool := false, pr: bool := false, L: Option<real> := None, b: Option<real> := None)
      requires roots.Valid()
      requires !Truthy(V1) ==> W0.Some?
      requires !Truthy(W0) ==> V1.Some?
      requires Truthy(L) && Truthy(b) ==> V1.Some? && L.value + b.value != 0.0
      ensures Valid()
      ensures this.roots == roots
      ensures this.dT == Excess(Tg, Tv)
      ensures this.cold == (cold || Tg <= Tv)
      ensures this.pr == (pr || (Truthy(L) && Truthy(b)))
      ensures this.H == H && this.L == L && this.b == b
      ensures var v1 := if Truthy(V1) then V1.value else FlowFromVelocity(W0.value, D);
              var w0 := if Truthy(W0) then W0.value else VelocityFromFlow(V1.value, D);
              var round := (if !Truthy(V1) && Truthy(W0) then [Formula(FlowRate, [W0.value, D], v1)] else [])
                         + (if !Truthy(W0) && 3.14 * Sq(D) != 0.0 && Truthy(V1) && !this.cold
                            then [Formula(ExitVelocity, [V1.value, D], w0)] else []);
              if Truthy(L) && Truthy(b) then
                && this.D == EquivalentDiameterOf(L.value, b.value)
                && this.W0 == RectVelocityOf(V1.value, L.value, b.value)
                && this.V1 == RectFlowOf(this.D, this.W0)
                && this.labelSteps == round + [Title(RectangularOutlet(this.cold)),
                                          Formula(EquivalentDiameter, [L.value, b.value], this.D),
                                          Formula(RectExitVelocity, [v1, L.value, b.value], this.W0),
                                          Formula(EquivalentFlowRate, [this.D, this.W0], this.V1)]
              else
                && this.D == D && this.W0 == w0 && this.V1 == v1
                && this.labelSteps == round + (if pr then [] else [Title(CircularOutlet(this.cold))])
      ensures f == None && Vm == None && Vml == None && fe == None && m == None && n == None
      ensures M == None && F == None && A == None && nu == None && Cm == None && Xm == None
      ensures pdk == None && Cf == None && pdv == None
    {
      var steps: seq<Step> := [];
      var isCold, isRect := cold, pr;
      var excess := Tg - Tv;
      if excess < 0.0 {
        excess := 0.0;
      }
      if excess == 0.0 {
        isCold := true;
      }
      var w0, v1, d: real;
      if !Truthy(V1) {
        v1 := FlowFromVelocity(W0.value, D);
        if Truthy(W0) {
          steps := steps + [Formula(FlowRate, [W0.value, D], v1)];
        }
      } else {
        v1 := V1.value;
      }
      if !Truthy(W0) {
        if 3.14 * Sq(D) == 0.0 {
          // the one division by zero the source catches
          w0 := 0.0;
        } else {
          w0 := Round3(4.0 * V1.value / (3.14 * Sq(D)));
          if Truthy(V1) && !isCold {
            steps := steps + [Formula(ExitVelocity, [V1.value, D], w0)];
          }
        }
      } else {
        w0 := W0.value;
      }
      d := D;
      if Truthy(L) && Truthy(b) {
        isRect := true;
        d := EquivalentDiameterOf(L.value, b.value);
        assert L.value * b.value != 0.0;
        // the exit velocity divides the V1 argument, while the label shows the V1 derived so far
        var w0Rect := RectVelocityOf(V1.value, L.value, b.value);
        var v1Rect := RectFlowOf(d, w0Rect);
        steps := steps + [Title(RectangularOutlet(isCold)),
                          Formula(EquivalentDiameter, [L.value, b.value], d),
                          Formula(RectExitVelocity, [v1, L.value, b.value], w0Rect),
                          Formula(EquivalentFlowRate, [d, w0Rect], v1Rect)];
        w0, v1 := w0Rect, v1Rect;
      }
      if !isRect {
        steps := steps + [Title(CircularOutlet(isCold))];
      }
      this.roots, this.labelSteps := roots, steps;
      this.cold, this.pr, this.dT := isCold, isRect, excess;
      this.W0, this.V1, this.D, this.H, this.L, this.b := w0, v1, d, H, L, b;
      f, Vm, Vml, fe, m, n := None, None, None, None, None, None;
      M, F, A, nu, Cm, Xm := None, None, None, None, None, None;
      pdk, Cf, pdv := None, None, None;
    }

    /** Vm' always; f, Vm and fe only for a hot source. */
    method Parameters()
      requires Valid() && H != 0.0
      requires !cold ==> 0.0 <= V1 * dT / H
      modifies this`f, this`Vm, this`Vml, this`fe, this`labelSteps
      ensures Valid()
      ensures Vml == Some(VmlOf(W0, D, H))
      ensures cold ==> f.None? && Vm.None? && fe.None?
      ensures !cold ==> && f == Some(BuoyancyOf(W0, D, H, dT))
                        && Vm == Some(VmOf(roots, V1, dT, H))
                        && fe == Some(FeOf(Vml.value))
      ensures labelSteps == old(labelSteps)
                       + (if cold then [] else [Formula(Buoyancy, [W0, D, H, dT], f.value),
                                                Formula(MaxVelocity, [V1, dT, H], Vm.value)])
                       + [Formula(MaxVelocityPrime, [W0, D, H], Vml.value)]
                       + (if cold then [] else [Formula(BuoyancyLimit, [Vml.value], fe.value)])
    {
      if !cold {
        f := Some(BuoyancyOf(W0, D, H, dT));
        labelSteps := labelSteps + [Formula(Buoyancy, [W0, D, H, dT], f.value)];
        Vm := Some(VmOf(roots, V1, dT, H));
        labelSteps := labelSteps + [Formula(MaxVelocity, [V1, dT, H], Vm.value)];
      }
      Vml := Some(VmlOf(W0, D, H));
      labelSteps := labelSteps + [Formula(MaxVelocityPrime, [W0, D, H], Vml.value)];
      if !cold {
        fe := Some(FeOf(Vml.value));
        labelSteps := labelSteps + [Formula(BuoyancyLimit, [Vml.value], fe.value)];
      }
    }

    /** Coefficient m of a hot source, by the first of fe < f < 100, f < 100, f ≥ 100 that holds. */
    method MCoef()
      requires Valid() && f.Some? && fe.Some?
      requires MDomain(f.value, fe.value)
      modifies this`m, this`labelSteps
      ensures Valid()
      ensures m == Some(MCoefOf(roots, f.value, fe.value))
      ensures var r := MRegimeOf(f.value, fe.value);
              labelSteps == old(labelSteps) + [Formula(Momentum(r), [if r == MFromFe then fe.value else f.value], m.value)]
    {
      if fe.value < f.value < 100.0 {
        m := Some(MomentumSmallF(roots, fe.value));
        labelSteps := labelSteps + [Formula(Momentum(MFromFe), [fe.value], m.value)];
      } else if f.value < 100.0 {
        m := Some(MomentumSmallF(roots, f.value));
        labelSteps := labelSteps + [Formula(Momentum(MFromF), [f.value], m.value)];
      } else {
        m := Some(MomentumLargeF(roots, f.value));
        labelSteps := labelSteps + [Formula(Momentum(MLargeF), [f.value], m.value)];
      }
    }

    /** Coefficient n from V = Vm' (cold) or Vm (hot); one of the three guards always holds. */
    method NCoef()
      requires Valid() && (if cold then Vml.Some? else Vm.Some?)
      modifies this`n, this`labelSteps
      ensures var v := if cold then Vml.value else Vm.value;
              && n == Some(NCoefOf(v))
              && labelSteps == old(labelSteps) + (if cold then [Title(ColdWindNote)] else [])
                          + [Formula(Wind(NRegimeOf(v)),
                                     match NRegimeOf(v) case NHigh => [] case NMid => [v, v] case NLow => [v],
                                     n.value)]
    {
      var v: real;
      if cold {
        v := Vml.value;
        labelSteps := labelSteps + [Title(ColdWindNote)];
      } else {
        v := Vm.value;
      }
      if v >= 2.0 {
        n := Some(1.0);
        labelSteps := labelSteps + [Formula(Wind(NHigh), [], n.value)];
      } else if 0.5 <= v < 2.0 {
        n := Some(WindMid(v));
        labelSteps := labelSteps + [Formula(Wind(NMid), [v, v], n.value)];
      } else if v < 0.5 {
        n := Some(WindLow(v));
        labelSteps := labelSteps + [Formula(Wind(NLow), [v], n.value)];
      }
    }

    /**
      Maximum ground concentration. M is replaced on every call, F, A and η
      are kept from the first call that gave them, and the formula itself
      uses this call's arguments.
     */
    method MaxConcentrate(M: real, F: real, A: real := 160.0, nu: real := 1.0)
      requires Valid() && V1 != 0.0 && n.Some?
      requires ConcentrationDomain(cold, H, V1, dT, m)
      modifies this`M, this`F, this`A, this`nu, this`Cm, this`labelSteps
      ensures this.M == Some(M)
      ensures this.F == Some(FirstWrite(old(this.F), F))
      ensures this.A == Some(FirstWrite(old(this.A), A))
      ensures this.nu == Some(FirstWrite(old(this.nu), nu))
      ensures var k := KOf(D, V1);
              && Cm == Some(ConcentrationOf(roots, cold, A, M, F, m, n.value, nu, H, V1, dT, k))
              && labelSteps == old(labelSteps) + [Title(ConcentrationHeading)]
                 + (if cold then [Formula(ColdFactor, [D, V1], k),
                                  Formula(Concentration(true), [A, M, F, n.value, nu, H, k], Cm.value)]
                    else [Formula(Concentration(false), [A, M, F, m.value, n.value, nu, H, V1, dT], Cm.value)])
    {
      var k := KOf(D, V1);
      var c := ConcentrationOf(roots, cold, A, M, F, m, n.value, nu, H, V1, dT, k);
      this.M := Some(M);
      this.F, this.A, this.nu := Some(FirstWrite(this.F, F)), Some(FirstWrite(this.A, A)), Some(FirstWrite(this.nu, nu));
      Cm := Some(c);
      labelSteps := labelSteps + [Title(ConcentrationHeading)]
                    + (if cold then [Formula(ColdFactor, [D, V1], k),
                                     Formula(Concentration(true), [A, M, F, n.value, nu, H, k], c)]
                       else [Formula(Concentration(false), [A, M, F, m.value, n.value, nu, H, V1, dT], c)]);
    }

    /** Distance to the maximum: d from Vm' when cold or f > 100, from Vm otherwise; Xm uses the stored F. */
    method MaxDistance()
      requires Valid() && F.Some?
      requires cold ==> Vml.Some?
      requires !cold ==> f.Some? && (f.value <= 100.0 ==> VmDistanceDomain(Vm.value, f.value, fe.value))
      modifies this`Xm, this`labelSteps
      ensures var fromVml := cold || UsesVmlDistance(cold, f.value);
              var v := if fromVml then Vml.value else Vm.value;
              var d := if fromVml then VmlDistanceCoef(roots, v) else VmDistanceCoef(roots, v, f.value, fe.value);
              var shown := match DRegimeOf(v)
                           case DLow => if fromVml then [] else [fe.value]
                           case _ => if fromVml then [v] else [v, f.value];
              && Xm == Some(XmOf(F.value, H, d))
              && labelSteps == old(labelSteps) + [Title(DistanceHeading),
                                        Formula(DistanceCoef(fromVml, DRegimeOf(v)), shown, d),
                                        Formula(Distance, [F.value, H, d], Xm.value)]
    {
      var d: real;
      var dStep: Step;
      if cold || f.value > 100.0 {
        if Vml.value <= 0.5 {
          d := 5.7;
          dStep := Formula(DistanceCoef(true, DLow), [], d);
        } else if 0.5 < Vml.value <= 2.0 {
          d := 11.4 * Vml.value;
          dStep := Formula(DistanceCoef(true, DMid), [Vml.value], d);
        } else {
          assert Vml.value > 2.0;
          d := 16.0 * roots.sqrt(Vml.value);
          dStep := Formula(DistanceCoef(true, DHigh), [Vml.value], d);
        }
      } else {
        if Vm.value <= 0.5 {
          d := 2.48 * (1.0 + 0.28 * roots.cbrt(fe.value));
          dStep := Formula(DistanceCoef(false, DLow), [fe.value], d);
        } else if 0.5 < Vm.value <= 2.0 {
          d := 4.95 * Vm.value * (1.0 + 0.28 * roots.cbrt(f.value));
          dStep := Formula(DistanceCoef(false, DMid), [Vm.value, f.value], d);
        } else {
          assert Vm.value > 2.0;
          d := 7.0 * roots.sqrt(Vm.value) * (1.0 + 0.28 * roots.cbrt(f.value));
          dStep := Formula(DistanceCoef(false, DHigh), [Vm.value, f.value], d);
        }
      }
      var fromVml := cold || UsesVmlDistance(cold, f.value);
      var v := if fromVml then Vml.value else Vm.value;
      assert d == (if fromVml then VmlDistanceCoef(roots, v) else VmDistanceCoef(roots, v, f.value, fe.value));
      assert dStep.quantity == DistanceCoef(fromVml, DRegimeOf(v));
      assert dStep.operands == match DRegimeOf(v)
                           case DLow => if fromVml then [] else [fe.value]
                           case _ => if fromVml then [v] else [v, f.value];
      var x := XmOf(F.value, H, d);
      Xm := Some(x);
      labelSteps := labelSteps + [Title(DistanceHeading), dStep, Formula(Distance, [F.value, H, d], x)];
    }

    /**
      Maximum permissible emission for the limit pdk and the background Cf;
      F, A and η are kept from the first call that gave them, and the formula
      uses the stored values.
     */
    method PdvFunc(pdk: real, Cf: real, F: real := 1.0, A: real := 160.0, nu: real := 1.0)
      requires n.Some?
      requires EmissionDomain(cold, H, V1, dT, FirstWrite(this.A, A), FirstWrite(this.F, F), m, n.value,
                              FirstWrite(this.nu, nu), D)
      modifies this`pdk, this`Cf, this`F, this`A, this`nu, this`pdv, this`labelSteps
      ensures this.pdk == Some(pdk) && this.Cf == Some(Cf)
      ensures this.F == Some(FirstWrite(old(this.F), F))
      ensures this.A == Some(FirstWrite(old(this.A), A))
      ensures this.nu == Some(FirstWrite(old(this.nu), nu))
      ensures var a, ff, eta := this.A.value, this.F.value, this.nu.value;
              && pdv == Some(EmissionOf(roots, cold, pdk, Cf, H, V1, dT, a, ff, m, n.value, eta, D))
              && labelSteps == old(labelSteps)
                 + [Title(EmissionHeading),
                    Formula(PermissibleEmission(cold),
                            if cold then [pdk, Cf, H, V1, a, ff, n.value, eta, D]
                            else [pdk, Cf, H, a, ff, m.value, n.value, eta, V1, dT],
                            pdv.value)]
    {
      var a, ff, eta := FirstWrite(this.A, A), FirstWrite(this.F, F), FirstWrite(this.nu, nu);
      var p := EmissionOf(roots, cold, pdk, Cf, H, V1, dT, a, ff, m, n.value, eta, D);
      this.pdk, this.Cf := Some(pdk), Some(Cf);
      this.F, this.A, this.nu := Some(ff), Some(a), Some(eta);
      pdv := Some(p);
      labelSteps := labelSteps
                    + [Title(EmissionHeading),
                       Formula(PermissibleEmission(cold),
                               if cold then [pdk, Cf, H, V1, a, ff, n.value, eta, D]
                               else [pdk, Cf, H, a, ff, m.value, n.value, eta, V1, dT],
                               p)];
    }
  }

  /**
    The scenario the program runs: a rectangular 0.875 m × 0.35 m mouth,
    25 m high, exhausting 0.98 m³/s at the ambient temperature, so the
    source is cold and the momentum stage is skipped.
   */
  method WorkedExample(roots: Roots) returns (o: Ovos)
    requires roots.Valid()
    ensures o.cold && o.pr && o.dT == 0.0
    ensures o.D == 0.5 && o.W0 == 3.2 && o.V1 == 0.628 && o.H == 25.0
    ensures o.Vml == Some(0.083) && o.f.None? && o.m.None? && o.n == Some(0.365)
    ensures o.M == Some(16.0) && o.F == Some(1.0) && o.A == Some(160.0) && o.nu == Some(1.0)
    ensures o.Cm == Some(Round3(CmColdExact(roots, 160.0, 16.0, 1.0, 0.365, 1.0, 25.0, 0.1)))
    ensures o.Xm == Some(142.5)
    ensures o.pdk == Some(1.5) && o.Cf == Some(0.3)
    ensures o.pdv == Some(Round3(PdvColdExact(roots, 1.5, 0.3, 25.0, 0.628, 160.0, 1.0, 0.365, 1.0, 0.5)))
  {
    o := ExamplePrinted(roots);
    o.PdvFunc(1.5, 0.3);
  }

  /** The example's object when the program prints its label: after the concentration and distance stages. */
  method ExamplePrinted(roots: Roots) returns (o: Ovos)
    requires roots.Valid()
    ensures fresh(o) && o.Valid() && o.roots == roots
    ensures o.cold && o.pr && o.dT == 0.0
    ensures o.D == 0.5 && o.W0 == 3.2 && o.V1 == 0.628 && o.H == 25.0
    ensures o.Vml == Some(0.083) && o.f.None? && o.m.None? && o.n == Some(0.365)
    ensures o.M == Some(16.0) && o.F == Some(1.0) && o.A == Some(160.0) && o.nu == Some(1.0)
    ensures o.Cm == Some(Round3(CmColdExact(roots, 160.0, 16.0, 1.0, 0.365, 1.0, 25.0, 0.1)))
    ensures o.Xm == Some(142.5)
  {
    ExampleValues();
    o := ExampleSource(roots);
    o.MaxConcentrate(16.0, 1.0, 160.0, 1.0);
    o.MaxDistance();
  }

  /** The example's object after the parameter and wind stages. */
  method ExampleSource(roots: Roots) returns (o: Ovos)
    requires roots.Valid()
    ensures fresh(o) && o.Valid() && o.roots == roots
    ensures o.cold && o.pr && o.dT == 0.0
    ensures o.D == 0.5 && o.W0 == 3.2 && o.V1 == 0.628 && o.H == 25.0
    ensures o.Vml == Some(0.083) && o.f.None? && o.m.None? && o.n == Some(0.365)
    ensures o.M.None? && o.F.None? && o.A.None? && o.nu.None?
  {
    ExampleValues();
    o := new Ovos(roots, V1 := Some(0.98), H := 25.0, L := Some(0.875), b := Some(0.35), Tg := 25.0, Tv := 25.0);
    o.Parameters();
    // the source calls m_coef only for a hot source
    o.NCoef();
  }

  /** The rounded intermediate values of the worked example. */
  lemma ExampleValues()
    ensures EquivalentDiameterOf(0.875, 0.35) == 0.5
    ensures RectVelocityOf(0.98, 0.875, 0.35) == 3.2
    ensures RectFlowOf(0.5, 3.2) == 0.628
    ensures VmlOf(3.2, 0.5, 25.0) == 0.083
    ensures NCoefOf(0.083) == 0.365
    ensures KOf(0.5, 0.628) == 0.1
    ensures DRegimeOf(0.083) == DLow
    ensures XmOf(1.0, 25.0, 5.7) == 142.5
  {
    Round3Is(2.0 * 0.875 * 0.35 / (0.875 + 0.35), 500);
    Round3Is(0.98 / (0.875 * 0.35), 3200);
    Round3Is(3.14 * Sq(0.5) / 4.0 * 3.2, 628);
    Round3Is(1.3 * (3.2 * 0.5) / 25.0, 83);
    Round3Is(4.4 * 0.083, 365);
    Round3Is(0.5 / (8.0 * 0.628), 100);
    Round3Is((5.0 - 1.0) / 4.0 * 25.0 * 5.7, 142500);
  }
}
