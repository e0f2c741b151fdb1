/**
  The two-body kinematics behind `Reaction::CalculateRho` (src/Reaction.cpp):
  the ejectile's kinetic energy from the quadratic in its square-root
  momentum, the choice between the two roots, and the bending radius in the
  spectrograph's field.
 */
module Kinematics {
  import opened Doubles

  /** Speed of light in m/s. */
  const C: real := 299792458.0
  /** Converts q*B*rho in kG*cm to momentum in MeV/c. */
  const QBRHO2P: real := C / 1000000000.0
  /** pi / 180, with pi as a double. */
  const DEG2RAD: real := 3.141592653589793 / 180.0

  /** An angle in degrees converted to radians. */
  function Radians(degrees: real): real
  {
    degrees * DEG2RAD
  }

  /** One reactant or product: energies and momentum in MeV, mass number, charge, ground-state mass, symbol. */
  datatype Nucleus = Nucleus(E: real, KE: real, p: Double, A: int, Z: int, massGs: real, sym: string)

  const Unset: Nucleus := Nucleus(0.0, 0.0, Num(0.0), 0, 0, 0.0, "")

  /** `sqrt(pow(E, 2.) - pow(m, 2.))`: momentum from total energy and mass. */
  function MomentumOf(math: MathLib, total: real, mass: real): Double
  {
    Sqrt(math, Num(math.square(total) - math.square(mass)))
  }

  /** The reaction Q-value for a residual left at `excitation` MeV. */
  function QValue(projectile: Nucleus, target: Nucleus, ejectile: Nucleus, residual: Nucleus, excitation: real): real
  {
    projectile.massGs + target.massGs - (ejectile.massGs + residual.massGs + excitation)
  }

  /** `r`: the linear coefficient of the quadratic in sqrt(ejectile KE). */
  function RCoefficient(math: MathLib, projectile: Nucleus, ejectile: Nucleus, residual: Nucleus, theta: real): Double
  {
    Mul(Div(Sqrt(math, Num(projectile.massGs * ejectile.massGs * projectile.KE)), Num(ejectile.massGs + residual.massGs)),
        Num(math.cos(theta)))
  }

  /** `s`: the constant term of the quadratic. */
  function SCoefficient(projectile: Nucleus, target: Nucleus, ejectile: Nucleus, residual: Nucleus, excitation: real): Double
  {
    Div(Num(projectile.KE * (residual.massGs - projectile.massGs) + residual.massGs * QValue(projectile, target, ejectile, residual, excitation)),
        Num(ejectile.massGs + residual.massGs))
  }

  /**
    The root rule: `x1` squared whenever `x1` is a usable root, `x2` squared
    when only `x2` is, and `x1` squared (whatever it is) when neither is.
   */
  function ChooseEjectileKE(x1: Double, x2: Double): (ke: Double)
    ensures !NegativeOrNaN(x1) ==> ke == Mul(x1, x1)
    ensures NegativeOrNaN(x1) && !NegativeOrNaN(x2) ==> ke == Mul(x2, x2)
    ensures NegativeOrNaN(x1) && NegativeOrNaN(x2) ==> ke == Mul(x1, x1)
    ensures ke.NaN? || ke.v >= 0.0
  {
    if NegativeOrNaN(x2) then Mul(x1, x1)
    else if NegativeOrNaN(x1) then Mul(x2, x2)
    else Mul(x1, x1)
  }

  /** The two roots `r + sqrt(r*r + s)` and `r - sqrt(r*r + s)`. */
  function Roots(math: MathLib, r: Double, s: Double): (Double, Double)
  {
    var root := Sqrt(math, Add(Mul(r, r), s));
    (Add(r, root), Sub(r, root))
  }

  function EjectileKE(math: MathLib, projectile: Nucleus, target: Nucleus, ejectile: Nucleus, residual: Nucleus, theta: real, excitation: real): Double
  {
    var roots := Roots(math, RCoefficient(math, projectile, ejectile, residual, theta),
                       SCoefficient(projectile, target, ejectile, residual, excitation));
    ChooseEjectileKE(roots.0, roots.1)
  }

  /** The ejectile's momentum from its kinetic energy. */
  function Momentum(math: MathLib, ejectile: Nucleus, ke: Double): Double
  {
    Sqrt(math, Mul(ke, Add(ke, Num(2.0 * ejectile.massGs))))
  }

  /** The bending radius in cm: momentum / QBRHO2P / (Z * B), with B in kG. */
  function EjectileRho(math: MathLib, projectile: Nucleus, target: Nucleus, ejectile: Nucleus, residual: Nucleus,
                       theta: real, b: real, excitation: real): Double
  {
    var p := Momentum(math, ejectile, EjectileKE(math, projectile, target, ejectile, residual, theta, excitation));
    Div(Div(p, Num(QBRHO2P)), Num(ejectile.Z as real * b))
  }

  /**
    With a square root that behaves as IEEE requires, `x1 >= x2` always holds,
    so the rule never picks `x2`: the kinetic energy is always `x1` squared.
   */
  lemma ChosenRootIsX1(math: MathLib, r: Double, s: Double)
    requires SoundSqrt(math)
    ensures ChooseEjectileKE(Roots(math, r, s).0, Roots(math, r, s).1) == Mul(Roots(math, r, s).0, Roots(math, r, s).0)
  {
    var root := Sqrt(math, Add(Mul(r, r), s));
    if root.Num? && r.Num? {
      assert root.v >= 0.0;
    }
  }

  /** Below the threshold for the angle (`r*r + s < 0`) there is no real root and rho is NaN. */
  lemma ForbiddenGivesNaN(math: MathLib, projectile: Nucleus, target: Nucleus, ejectile: Nucleus, residual: Nucleus,
                          theta: real, b: real, excitation: real)
    requires SoundSqrt(math)
    requires var r := RCoefficient(math, projectile, ejectile, residual, theta);
             var s := SCoefficient(projectile, target, ejectile, residual, excitation);
             r.Num? && s.Num? && r.v * r.v + s.v < 0.0
    ensures EjectileRho(math, projectile, target, ejectile, residual, theta, b, excitation).NaN?
  {
    var r := RCoefficient(math, projectile, ejectile, residual, theta);
    var s := SCoefficient(projectile, target, ejectile, residual, excitation);
    assert Sqrt(math, Add(Mul(r, r), s)).NaN?;
  }

  /** For a positively charged ejectile in a positive field, rho is never negative. */
  lemma RhoNotNegative(math: MathLib, projectile: Nucleus, target: Nucleus, ejectile: Nucleus, residual: Nucleus,
                       theta: real, b: real, excitation: real)
    requires SoundSqrt(math)
    requires ejectile.Z as real * b > 0.0
    ensures var rho := EjectileRho(math, projectile, target, ejectile, residual, theta, b, excitation);
            rho.NaN? || rho.v >= 0.0
  {
    var p := Momentum(math, ejectile, EjectileKE(math, projectile, target, ejectile, residual, theta, excitation));
    assert p.NaN? || p.v >= 0.0;
    if p.Num? {
      assert p.v / QBRHO2P >= 0.0;
    }
  }

  /** Rho is inversely proportional to the field: rho * B does not depend on B. */
  lemma RhoInverseInField(math: MathLib, projectile: Nucleus, target: Nucleus, ejectile: Nucleus, residual: Nucleus,
                          theta: real, b1: real, b2: real, excitation: real)
    requires ejectile.Z != 0 && b1 != 0.0 && b2 != 0.0
    ensures var rho1 := EjectileRho(math, projectile, target, ejectile, residual, theta, b1, excitation);
            var rho2 := EjectileRho(math, projectile, target, ejectile, residual, theta, b2, excitation);
            rho1.Num? == rho2.Num? && (rho1.Num? ==> rho1.v * b1 == rho2.v * b2)
  {
    var p := Momentum(math, ejectile, EjectileKE(math, projectile, target, ejectile, residual, theta, excitation));
    if p.Num? {
      var q := p.v / QBRHO2P;
      var z := ejectile.Z as real;
      assert z * b1 != 0.0 && z * b2 != 0.0;
      assert q / (z * b1) * b1 == q / z;
      assert q / (z * b2) * b2 == q / z;
    }
  }
}
