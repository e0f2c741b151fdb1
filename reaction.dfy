/**
  One nuclear reaction target(projectile, ejectile)residual as
  src/Reaction.cpp keeps it: the four nuclei, the spectrograph settings, the
  residual's excitation energies and their labels, and the ejectile's bending
  radius for each excitation. Two flags gate its use: `targetInitialized`
  (reactants set and valid) and `kinematicsInitialized` (settings applied).

  The object's state is described by `ReactionState`, and each method of the
  class `Reaction` is specified by a function from the old state to the new.
 */
module Reactions {
  import opened Doubles
  import opened Kinematics
  import opened Decimal
  import MassLookup
  import ExTable
  import ReactionFile

  /** `to_string(A) + element symbol`. */
  function Symbol(a: int, element: string): string
  {
    IntToString(a) + element
  }

  /** `target(projectile,ejectile)residual`. */
  function ReactionName(target: string, projectile: string, ejectile: string, residual: string): string
  {
    target + "(" + projectile + "," + ejectile + ")" + residual
  }

  /** The residual nucleus exists: it keeps at least one nucleon and one proton. */
  predicate ResidualValid(at: int, zt: int, ap: int, zp: int, ae: int, ze: int)
  {
    at + ap - ae > 0 && zt + zp - ze > 0
  }

  /**
    A nucleus with its ground-state mass and symbol looked up from its A and Z:
    the symbol is the decimal A followed by the element of Z; energies and
    momentum are not touched.
   */
  function Identified(n: Nucleus, mass: MassLookup.MassTable): (r: Nucleus)
    ensures r.A == n.A && r.Z == n.Z
    ensures r.massGs == MassLookup.FindMass(mass, n.Z, n.A)
    ensures r.sym == IntToString(n.A) + MassLookup.FindElement(mass, n.Z)
    ensures r.E == n.E && r.KE == n.KE && r.p == n.p
  {
    n.(massGs := MassLookup.FindMass(mass, n.Z, n.A), sym := Symbol(n.A, MassLookup.FindElement(mass, n.Z)))
  }

  /** Every field of a `Reaction`. */
  datatype ReactionState = ReactionState(
    target: Nucleus, projectile: Nucleus, ejectile: Nucleus, residual: Nucleus,
    theta: real, B: real, beamE: real,
    name: string,
    excitations: seq<real>, exStrings: seq<string>, rhos: seq<Double>,
    targetInitialized: bool, kinematicsInitialized: bool)

  /** A newly constructed reaction: both flags cleared; what the C++ constructor leaves uninitialised is zero or empty. */
  const Fresh: ReactionState :=
    ReactionState(Unset, Unset, Unset, Unset, 0.0, 0.0, 0.0, "", [], [], [], false, false)

  /** Energies and labels are index-parallel; nothing is computed before the reactants are set. */
  predicate Valid(st: ReactionState)
  {
    && |st.excitations| == |st.exStrings|
    && (!st.targetInitialized ==> !st.kinematicsInitialized && st.rhos == [])
  }

  /** Every rho has a label at its index. */
  predicate Labelled(st: ReactionState)
  {
    |st.rhos| <= |st.exStrings|
  }

  /** The reactant tuple (target, projectile and ejectile A and Z) that identifies the reaction in a file. */
  function Identity(st: ReactionState): ReactionFile.Reactants
  {
    ReactionFile.Reactants(st.target.A, st.target.Z, st.projectile.A, st.projectile.Z, st.ejectile.A, st.ejectile.Z)
  }

  /**
    `SetReactionData` (src/Reaction.cpp:28-55): the three reactants from the
    mass table, the residual by conservation; when the residual has no
    nucleons or no protons, only the reactants and the residual's A and Z change.
   */
  function WithReactants(mass: MassLookup.MassTable, ex: ExTable.Table, st: ReactionState,
                         at: int, zt: int, ap: int, zp: int, ae: int, ze: int): (r: ReactionState)
  {
    var named := WithIdentities(mass, st, at, zt, ap, zp, ae, ze);
    if named.residual.A <= 0 || named.residual.Z <= 0 then named else Completed(mass, ex, named)
  }

  /** The residual looked up in the mass table, its excitations and their labels, the name, and the reaction marked usable. */
  function Completed(mass: MassLookup.MassTable, ex: ExTable.Table, st: ReactionState): ReactionState
  {
    var residual := Identified(st.residual, mass);
    st.(residual := residual,
        excitations := ExTable.GetListOfExcitations(ex, residual.sym),
        exStrings := ExTable.GetListOfExcitationStrings(ex, residual.sym),
        name := ReactionName(st.target.sym, st.projectile.sym, st.ejectile.sym, residual.sym),
        targetInitialized := true)
  }

  /** The three reactants looked up in the mass table, and the residual's A and Z by conservation. */
  function WithIdentities(mass: MassLookup.MassTable, st: ReactionState,
                          at: int, zt: int, ap: int, zp: int, ae: int, ze: int): ReactionState
  {
    st.(target := Identified(st.target.(A := at, Z := zt), mass),
        projectile := Identified(st.projectile.(A := ap, Z := zp), mass),
        ejectile := Identified(st.ejectile.(A := ae, Z := ze), mass),
        residual := st.residual.(A := at + ap - ae, Z := zt + zp - ze))
  }

  /** `CalculateRho` (src/Reaction.cpp:81-107): 0 before the settings are applied, otherwise the ejectile's rho. */
  function CalculateRho(math: MathLib, st: ReactionState, excitation: real): (rho: Double)
    ensures !st.kinematicsInitialized ==> rho == Num(0.0)
  {
    if !st.kinematicsInitialized then Num(0.0)
    else EjectileRho(math, st.projectile, st.target, st.ejectile, st.residual, st.theta, st.B, excitation)
  }

  /** One rho per excitation, in order. */
  function RhosFor(math: MathLib, st: ReactionState): (rhos: seq<Double>)
    ensures |rhos| == |st.excitations|
    ensures forall i :: 0 <= i < |rhos| ==> rhos[i] == CalculateRho(math, st, st.excitations[i])
  {
    seq(|st.excitations|, i requires 0 <= i < |st.excitations| => CalculateRho(math, st, st.excitations[i]))
  }

  /**
    `SetKinematicParams` (src/Reaction.cpp:58-78): nothing unless the
    reactants are set; otherwise the settings, a moving projectile, a target
    at rest, and the rhos recomputed.
   */
  function WithKinematics(math: MathLib, st: ReactionState, beamKE: real, labAngle: real, field: real): (r: ReactionState)
  {
    if !st.targetInitialized then st
    else
      var applied := Settled(math, st, beamKE, labAngle, field);
      applied.(rhos := RhosFor(math, applied))
  }

  /** The settings applied, the projectile moving with the beam energy and the target at rest; rhos not yet recomputed. */
  function Settled(math: MathLib, st: ReactionState, beamKE: real, labAngle: real, field: real): ReactionState
  {
    st.(beamE := beamKE, projectile := Moving(math, st.projectile, beamKE), theta := Radians(labAngle), B := field,
        target := AtRest(st.target), kinematicsInitialized := true)
  }

  /** A beam particle: kinetic energy `beamKE`, total energy kinetic plus rest mass, and the matching momentum. */
  function Moving(math: MathLib, n: Nucleus, beamKE: real): (r: Nucleus)
    ensures r.KE == beamKE && r.E == beamKE + n.massGs
    ensures r.p == MomentumOf(math, r.E, r.massGs)
    ensures r.A == n.A && r.Z == n.Z && r.massGs == n.massGs && r.sym == n.sym
  {
    var moving := n.(KE := beamKE);
    var moving := moving.(E := moving.KE + moving.massGs);
    moving.(p := MomentumOf(math, moving.E, moving.massGs))
  }

  /** A nucleus at rest: no kinetic energy, no momentum, total energy its rest mass. */
  function AtRest(n: Nucleus): (r: Nucleus)
    ensures r.KE == 0.0 && r.p == Num(0.0) && r.E == n.massGs
    ensures r.A == n.A && r.Z == n.Z && r.massGs == n.massGs && r.sym == n.sym
  {
    n.(E := n.massGs, KE := 0.0, p := Num(0.0))
  }

  /**
    What `SetReactionData` establishes: the reactants asked for, each with its
    looked-up mass and symbol; the residual by conservation; and the
    residual's symbol, mass, excitations and the name exactly when the
    residual exists (otherwise the early return leaves them as they were).
   */
  lemma ReactantsSet(mass: MassLookup.MassTable, ex: ExTable.Table, st: ReactionState,
                     at: int, zt: int, ap: int, zp: int, ae: int, ze: int)
    ensures var r := WithReactants(mass, ex, st, at, zt, ap, zp, ae, ze);
            && (Identity(r) == ReactionFile.Reactants(at, zt, ap, zp, ae, ze))
            && (r.residual.A + r.ejectile.A == r.target.A + r.projectile.A)
            && (r.residual.Z + r.ejectile.Z == r.target.Z + r.projectile.Z)
            && (r.target.massGs == MassLookup.FindMass(mass, zt, at) && r.target.sym == IntToString(at) + MassLookup.FindElement(mass, zt))
            && (r.projectile.massGs == MassLookup.FindMass(mass, zp, ap) && r.projectile.sym == IntToString(ap) + MassLookup.FindElement(mass, zp))
            && (r.ejectile.massGs == MassLookup.FindMass(mass, ze, ae) && r.ejectile.sym == IntToString(ae) + MassLookup.FindElement(mass, ze))
            && (r.targetInitialized == (st.targetInitialized || ResidualValid(at, zt, ap, zp, ae, ze)))
            && (!ResidualValid(at, zt, ap, zp, ae, ze) ==>
                && r.residual.sym == st.residual.sym && r.residual.massGs == st.residual.massGs
                && r.name == st.name && r.excitations == st.excitations && r.exStrings == st.exStrings)
            && (ResidualValid(at, zt, ap, zp, ae, ze) ==>
                && r.residual.massGs == MassLookup.FindMass(mass, r.residual.Z, r.residual.A)
                && r.residual.sym == IntToString(r.residual.A) + MassLookup.FindElement(mass, r.residual.Z)
                && r.excitations == ExTable.GetListOfExcitations(ex, r.residual.sym)
                && r.exStrings == ExTable.GetListOfExcitationStrings(ex, r.residual.sym)
                && r.name == ReactionName(r.target.sym, r.projectile.sym, r.ejectile.sym, r.residual.sym))
            && (r.rhos == st.rhos && r.kinematicsInitialized == st.kinematicsInitialized)
            && (r.theta == st.theta && r.B == st.B && r.beamE == st.beamE)
  {
  }

  /** What `SetKinematicParams` establishes, and that it leaves the reaction's identity, name and tables alone. */
  lemma KinematicsApplied(math: MathLib, st: ReactionState, beamKE: real, labAngle: real, field: real)
    ensures var r := WithKinematics(math, st, beamKE, labAngle, field);
            && (!st.targetInitialized ==> r == st)
            && (st.targetInitialized ==>
                && r.kinematicsInitialized && r.beamE == beamKE && r.B == field
                && r.projectile.KE == beamKE && r.projectile.E == beamKE + r.projectile.massGs
                && r.target.KE == 0.0 && r.target.p == Num(0.0) && r.target.E == r.target.massGs
                && r.rhos == RhosFor(math, r))
            && (Identity(r) == Identity(st) && r.name == st.name && r.targetInitialized == st.targetInitialized)
            && (r.excitations == st.excitations && r.exStrings == st.exStrings)
  {
    if st.targetInitialized {
      var r := WithKinematics(math, st, beamKE, labAngle, field);
      RhosIgnoreRhos(math, r, st.rhos);
    }
  }

  /** `GetAngle`: the lab angle in degrees. */
  function GetAngle(st: ReactionState): real
  {
    st.theta / DEG2RAD
  }

  /** The state a reaction is in once it has been set up with `SetReactionData` and then `SetKinematicParams`. */
  function Prepared(math: MathLib, mass: MassLookup.MassTable, ex: ExTable.Table, row: ReactionFile.Reactants,
                    beamKE: real, labAngle: real, field: real): ReactionState
  {
    WithKinematics(math, WithReactants(mass, ex, Fresh, row.at, row.zt, row.ap, row.zp, row.ae, row.ze), beamKE, labAngle, field)
  }

  lemma RhosIgnoreRhos(math: MathLib, st: ReactionState, rhos: seq<Double>)
    ensures RhosFor(math, st.(rhos := rhos)) == RhosFor(math, st)
  {
    assert forall x :: CalculateRho(math, st.(rhos := rhos), x) == CalculateRho(math, st, x);
  }

  /** Applying the same settings again changes nothing (what `UpdateReactions` relies on). */
  lemma KinematicsIdempotent(math: MathLib, st: ReactionState, beamKE: real, labAngle: real, field: real)
    ensures WithKinematics(math, WithKinematics(math, st, beamKE, labAngle, field), beamKE, labAngle, field)
         == WithKinematics(math, st, beamKE, labAngle, field)
  {
    if st.targetInitialized {
      var once := WithKinematics(math, st, beamKE, labAngle, field);
      var twice := WithKinematics(math, once, beamKE, labAngle, field);
      RhosIgnoreRhos(math, once, st.rhos);
      RhosIgnoreRhos(math, twice, st.rhos);
      assert twice.(rhos := st.rhos) == once.(rhos := st.rhos);
    }
  }

  /** New settings replace old ones completely: only the last `SetKinematicParams` counts. */
  lemma KinematicsLastWins(math: MathLib, st: ReactionState, bke1: real, angle1: real, field1: real,
                           bke2: real, angle2: real, field2: real)
    ensures WithKinematics(math, WithKinematics(math, st, bke1, angle1, field1), bke2, angle2, field2)
         == WithKinematics(math, st, bke2, angle2, field2)
  {
    if st.targetInitialized {
      var first := WithKinematics(math, st, bke1, angle1, field1);
      var second := WithKinematics(math, first, bke2, angle2, field2);
      var direct := WithKinematics(math, st, bke2, angle2, field2);
      RhosIgnoreRhos(math, second, st.rhos);
      RhosIgnoreRhos(math, direct, st.rhos);
      assert second.(rhos := st.rhos) == direct.(rhos := st.rhos);
    }
  }

  /** `SetReactionData` keeps the state valid. */
  lemma ReactantsKeepValid(mass: MassLookup.MassTable, ex: ExTable.Table, st: ReactionState,
                           at: int, zt: int, ap: int, zp: int, ae: int, ze: int)
    requires Valid(st) && ExTable.WellFormed(ex)
    ensures Valid(WithReactants(mass, ex, st, at, zt, ap, zp, ae, ze))
  {
    ReactantsSet(mass, ex, st, at, zt, ap, zp, ae, ze);
    ExTable.LookupsParallel(ex, WithReactants(mass, ex, st, at, zt, ap, zp, ae, ze).residual.sym);
  }

  /** `SetKinematicParams` keeps the state valid and leaves every rho with its label. */
  lemma KinematicsKeepValid(math: MathLib, st: ReactionState, beamKE: real, labAngle: real, field: real)
    requires Valid(st)
    ensures Valid(WithKinematics(math, st, beamKE, labAngle, field))
    ensures Labelled(WithKinematics(math, st, beamKE, labAngle, field))
  {
    KinematicsApplied(math, st, beamKE, labAngle, field);
  }

  /** `GetAngle` gives back the angle the settings were applied with. */
  lemma AngleRoundTrip(math: MathLib, st: ReactionState, beamKE: real, labAngle: real, field: real)
    requires st.targetInitialized
    ensures GetAngle(WithKinematics(math, st, beamKE, labAngle, field)) == labAngle
  {
    assert DEG2RAD > 0.0;
  }

  /** Setting a reaction up from a row gives it that row's reactants, whatever the tables and settings. */
  lemma PreparedIdentity(math: MathLib, mass: MassLookup.MassTable, ex: ExTable.Table, row: ReactionFile.Reactants,
                         beamKE: real, labAngle: real, field: real)
    ensures Identity(Prepared(math, mass, ex, row, beamKE, labAngle, field)) == row
  {
    var reactants := WithReactants(mass, ex, Fresh, row.at, row.zt, row.ap, row.zp, row.ae, row.ze);
    ReactantsSet(mass, ex, Fresh, row.at, row.zt, row.ap, row.zp, row.ae, row.ze);
    KinematicsApplied(math, reactants, beamKE, labAngle, field);
  }

  /**
    A fresh reaction set up from a row: it is usable exactly when the residual
    exists, and then its rhos are those of the applied settings.
   */
  lemma PreparedReaction(math: MathLib, mass: MassLookup.MassTable, ex: ExTable.Table, row: ReactionFile.Reactants,
                         beamKE: real, labAngle: real, field: real)
    requires ExTable.WellFormed(ex)
    ensures var st := Prepared(math, mass, ex, row, beamKE, labAngle, field);
            && Identity(st) == row && Valid(st) && Labelled(st)
            && st.targetInitialized == ResidualValid(row.at, row.zt, row.ap, row.zp, row.ae, row.ze)
            && (st.targetInitialized ==> st.kinematicsInitialized && st.rhos == RhosFor(math, st) && GetAngle(st) == labAngle)
            && (!st.targetInitialized ==> st.rhos == [] && !st.kinematicsInitialized)
  {
    var reactants := WithReactants(mass, ex, Fresh, row.at, row.zt, row.ap, row.zp, row.ae, row.ze);
    ReactantsSet(mass, ex, Fresh, row.at, row.zt, row.ap, row.zp, row.ae, row.ze);
    KinematicsApplied(math, reactants, beamKE, labAngle, field);
    ReactantsKeepValid(mass, ex, Fresh, row.at, row.zt, row.ap, row.zp, row.ae, row.ze);
    KinematicsKeepValid(math, reactants, beamKE, labAngle, field);
    if reactants.targetInitialized {
      AngleRoundTrip(math, reactants, beamKE, labAngle, field);
    }
  }

  class Reaction {
    var target: Nucleus
    var projectile: Nucleus
    var ejectile: Nucleus
    var residual: Nucleus
    /** Lab angle in radians, field in kG, beam kinetic energy in MeV. */
    var theta: real
    var B: real
    var beamE: real
    var name: string
    var excitations: seq<real>
    var exStrings: seq<string>
    var rhos: seq<Double>
    var targetInitialized: bool
    var kinematicsInitialized: bool

    function State(): ReactionState
      reads this
    {
      ReactionState(target, projectile, ejectile, residual, theta, B, beamE, name,
                    excitations, exStrings, rhos, targetInitialized, kinematicsInitialized)
    }

    constructor()
      ensures State() == Fresh
    {
      target, projectile, ejectile, residual := Unset, Unset, Unset, Unset;
      theta, B, beamE := 0.0, 0.0, 0.0;
      name := "";
      excitations, exStrings, rhos := [], [], [];
      targetInitialized, kinematicsInitialized := false, false;
    }

    /** The copy C++ makes when a `Reaction` is passed or stored by value. */
    constructor Copy(other: Reaction)
      ensures State() == other.State()
    {
      target, projectile, ejectile, residual := other.target, other.projectile, other.ejectile, other.residual;
      theta, B, beamE := other.theta, other.B, other.beamE;
      name := other.name;
      excitations, exStrings, rhos := other.excitations, other.exStrings, other.rhos;
      targetInitialized, kinematicsInitialized := other.targetInitialized, other.kinematicsInitialized;
    }

    /** `SetExcitations`: the residual's energies and labels from the excitation table. */
    method SetExcitations(ex: ExTable.Table)
      modifies this`excitations, this`exStrings
      ensures excitations == ExTable.GetListOfExcitations(ex, residual.sym)
      ensures exStrings == ExTable.GetListOfExcitationStrings(ex, residual.sym)
    {
      excitations := ExTable.GetListOfExcitations(ex, residual.sym);
      exStrings := ExTable.GetListOfExcitationStrings(ex, residual.sym);
    }

    method SetReactionData(mass: MassLookup.MassTable, ex: ExTable.Table, at: int, zt: int, ap: int, zp: int, ae: int, ze: int)
      modifies this`target, this`projectile, this`ejectile, this`residual, this`excitations, this`exStrings, this`name, this`targetInitialized
      ensures State() == WithReactants(mass, ex, old(State()), at, zt, ap, zp, ae, ze)
    {
      IdentifyReactants(mass, at, zt, ap, zp, ae, ze);
      if residual.A <= 0 || residual.Z <= 0 {
        return;
      }
      CompleteReaction(mass, ex);
    }

    /** The last steps of `SetReactionData`, once the residual is known to exist. */
    method CompleteReaction(mass: MassLookup.MassTable, ex: ExTable.Table)
      modifies this`residual, this`excitations, this`exStrings, this`name, this`targetInitialized
      ensures State() == Completed(mass, ex, old(State()))
    {
      residual := Identified(residual, mass);

      SetExcitations(ex);

      name := ReactionName(target.sym, projectile.sym, ejectile.sym, residual.sym);
      targetInitialized := true;
    }

    /** The first steps of `SetReactionData`: the reactants from the mass table, the residual's A and Z. */
    method IdentifyReactants(mass: MassLookup.MassTable, at: int, zt: int, ap: int, zp: int, ae: int, ze: int)
      modifies this`target, this`projectile, this`ejectile, this`residual
      ensures State() == WithIdentities(mass, old(State()), at, zt, ap, zp, ae, ze)
    {
      target, projectile, ejectile, residual :=
        Identified(target.(A := at, Z := zt), mass), Identified(projectile.(A := ap, Z := zp), mass),
        Identified(ejectile.(A := ae, Z := ze), mass), residual.(A := at + ap - ae, Z := zt + zp - ze);
    }

    method SetKinematicParams(math: MathLib, beamKE: real, labAngle: real, field: real)
      modifies this`beamE, this`projectile, this`theta, this`B, this`target, this`kinematicsInitialized, this`rhos
      ensures State() == WithKinematics(math, old(State()), beamKE, labAngle, field)
    {
      if !targetInitialized {
        return;
      }
      ApplySettings(math, beamKE, labAngle, field);
      CalculateRhos(math);
    }

    /** The assignments of `SetKinematicParams` that precede the rho computation. */
    method ApplySettings(math: MathLib, beamKE: real, labAngle: real, field: real)
      modifies this`beamE, this`projectile, this`theta, this`B, this`target, this`kinematicsInitialized
      ensures State() == Settled(math, old(State()), beamKE, labAngle, field)
    {
      var moving, resting := Moving(math, projectile, beamKE), AtRest(target);
      beamE, projectile, theta, B, target, kinematicsInitialized := beamKE, moving, Radians(labAngle), field, resting, true;
    }

    /** `CalculateRhos`: clears `rhos`, then appends one rho per excitation. */
    method CalculateRhos(math: MathLib)
      modifies this`rhos
      ensures rhos == RhosFor(math, old(State()))
    {
      ghost var st := State();
      rhos := [];
      var i := 0;
      while i < |excitations|
        invariant 0 <= i <= |excitations| && |rhos| == i
        invariant forall k :: 0 <= k < i ==> rhos[k] == CalculateRho(math, st, excitations[k])
      {
        rhos := rhos + [CalculateRho(math, State(), excitations[i])];
        i := i + 1;
      }
    }
  }
}
