/** The simulation container: the atom population, the clock and step
    counter, the interaction engine and the molecule tracker, and the
    velocity-Verlet step with its reflective box, Berendsen thermostat and
    periodic bond update. The random initial velocity of a spawned atom, the
    distance function and the square root are parameters. */
module Simulations {
  import opened Wrappers
  import opened Vectors
  import opened Elements
  import opened Electrons
  import opened Atoms
  import opened BondGraph
  import opened Interaction
  import opened Molecules

  // ---- the reflective box ----------------------------------------------------

  /** One axis of the box: a coordinate above +hw is put on that wall, else
      one below -hw on the other wall, and in both cases the velocity
      component reverses at half its speed. */
  function ReflectAxis(a: Atom, axis: nat, hw: real): (r: Atom)
    requires axis < 3
  {
    if a.pos.At(axis) > hw then a.(pos := a.pos.With(axis, hw), vel := a.vel.With(axis, a.vel.At(axis) * -0.5))
    else if a.pos.At(axis) < -hw then a.(pos := a.pos.With(axis, -hw), vel := a.vel.With(axis, a.vel.At(axis) * -0.5))
    else a
  }

  /** The atom after the first k axes of the box have been applied. */
  function Reflected(a: Atom, hw: real, k: nat): (r: Atom)
    requires k <= 3
  {
    if k == 0 then a else ReflectAxis(Reflected(a, hw, k - 1), k - 1, hw)
  }

  /** Every coordinate of p lies within [-hw, hw]. */
  predicate InBox(p: Vec3, hw: real) {
    -hw <= p.x <= hw && -hw <= p.y <= hw && -hw <= p.z <= hw
  }

  /** Setting one component leaves the others as they were. */
  lemma WithOthers(v: Vec3, axis: nat, val: real, other: nat)
    requires axis < 3 && other < 3
    ensures v.With(axis, val).At(axis) == val
    ensures other != axis ==> v.With(axis, val).At(other) == v.At(other)
  {
  }

  /** Applying one axis changes only that axis's position and velocity
      components. */
  lemma ReflectAxisOthers(a: Atom, axis: nat, hw: real, other: nat)
    requires axis < 3 && other < 3 && other != axis
    ensures ReflectAxis(a, axis, hw).pos.At(other) == a.pos.At(other)
    ensures ReflectAxis(a, axis, hw).vel.At(other) == a.vel.At(other)
  {
    WithOthers(a.pos, axis, hw, other);
    WithOthers(a.pos, axis, -hw, other);
    WithOthers(a.vel, axis, a.vel.At(axis) * -0.5, other);
  }

  /** After the first k axes, axes k and above are as they were. */
  lemma {:induction false} ReflectedLater(a: Atom, hw: real, k: nat, axis: nat)
    requires k <= axis < 3
    ensures Reflected(a, hw, k).pos.At(axis) == a.pos.At(axis)
    ensures Reflected(a, hw, k).vel.At(axis) == a.vel.At(axis)
  {
    if k > 0 {
      ReflectedLater(a, hw, k - 1, axis);
      ReflectAxisOthers(Reflected(a, hw, k - 1), k - 1, hw, axis);
    }
  }

  /** Axes below k keep what their own step made of them. */
  lemma {:induction false} ReflectedEarlier(a: Atom, hw: real, k: nat, axis: nat)
    requires axis < k <= 3
    ensures Reflected(a, hw, k).pos.At(axis) == ReflectAxis(a, axis, hw).pos.At(axis)
    ensures Reflected(a, hw, k).vel.At(axis) == ReflectAxis(a, axis, hw).vel.At(axis)
  {
    var b := Reflected(a, hw, k - 1);
    if axis == k - 1 {
      ReflectedLater(a, hw, k - 1, axis);
      assert b.pos.At(axis) == a.pos.At(axis) && b.vel.At(axis) == a.vel.At(axis);
      WithOthers(b.pos, axis, hw, axis);
      WithOthers(b.pos, axis, -hw, axis);
      WithOthers(b.vel, axis, b.vel.At(axis) * -0.5, axis);
      WithOthers(a.pos, axis, hw, axis);
      WithOthers(a.pos, axis, -hw, axis);
      WithOthers(a.vel, axis, a.vel.At(axis) * -0.5, axis);
    } else {
      ReflectedEarlier(a, hw, k - 1, axis);
      ReflectAxisOthers(b, k - 1, hw, axis);
    }
  }

  /** Only the position and velocity of an atom change at the walls. */
  lemma {:induction false} ReflectedFields(a: Atom, hw: real, k: nat)
    requires k <= 3
    ensures Reflected(a, hw, k) == a.(pos := Reflected(a, hw, k).pos, vel := Reflected(a, hw, k).vel)
  {
    if k > 0 {
      ReflectedFields(a, hw, k - 1);
    }
  }

  /** applyBoundary, axis by axis: a coordinate beyond +hw is set to hw and
      one beyond -hw to -hw, with the velocity component multiplied by -0.5
      in both cases; an axis already inside the box is untouched; nothing
      else of the atom changes. */
  lemma BoundaryRule(a: Atom, hw: real, axis: nat)
    requires axis < 3
    ensures var r := Reflected(a, hw, 3);
      (a.pos.At(axis) > hw ==> r.pos.At(axis) == hw && r.vel.At(axis) == -0.5 * a.vel.At(axis))
      && (hw >= a.pos.At(axis) && a.pos.At(axis) < -hw ==> r.pos.At(axis) == -hw && r.vel.At(axis) == -0.5 * a.vel.At(axis))
      && (-hw <= a.pos.At(axis) <= hw ==> r.pos.At(axis) == a.pos.At(axis) && r.vel.At(axis) == a.vel.At(axis))
      && r == a.(pos := r.pos, vel := r.vel)
  {
    ReflectedEarlier(a, hw, 3, axis);
    ReflectedFields(a, hw, 3);
    WithOthers(a.pos, axis, hw, axis);
    WithOthers(a.pos, axis, -hw, axis);
    WithOthers(a.vel, axis, a.vel.At(axis) * -0.5, axis);
  }

  /** After the boundary every coordinate lies in the box (for a box of
      non-negative half-width). */
  lemma BoundaryInBox(a: Atom, hw: real)
    requires hw >= 0.0
    ensures InBox(Reflected(a, hw, 3).pos, hw)
  {
    var r := Reflected(a, hw, 3);
    BoundaryRule(a, hw, 0);
    BoundaryRule(a, hw, 1);
    BoundaryRule(a, hw, 2);
    assert r.pos.x == r.pos.At(0) && r.pos.y == r.pos.At(1) && r.pos.z == r.pos.At(2);
  }

  /** An atom already in the box is left exactly as it is. */
  lemma BoundaryInside(a: Atom, hw: real)
    requires InBox(a.pos, hw)
    ensures Reflected(a, hw, 3) == a
  {
    assert a.pos.At(0) == a.pos.x && a.pos.At(1) == a.pos.y && a.pos.At(2) == a.pos.z;
    assert Reflected(a, hw, 1) == a;
    assert Reflected(a, hw, 2) == a;
  }

  // ---- the integrator ----------------------------------------------------------

  /** One half-kick of an atom: v += (dt/2) F / m, skipped when the mass is
      not positive. */
  function Kicked(a: Atom, dt: real): (r: Atom)
    ensures r == a.(vel := r.vel)
    ensures a.mass <= 0.0 ==> r == a
    ensures a.force == Zero ==> r == a
  {
    if a.mass > 0.0 then a.(vel := a.vel.Add(a.force.Scale(0.5 * dt).Scale(1.0 / a.mass))) else a
  }

  /** A half-kick changes the momentum of an atom of positive mass by
      exactly half a time step's impulse. */
  lemma KickImpulse(a: Atom, dt: real)
    requires a.mass > 0.0
    ensures Kicked(a, dt).vel.Sub(a.vel).Scale(a.mass) == a.force.Scale(0.5 * dt)
  {
    var m := a.mass;
    var f := a.force.Scale(0.5 * dt);
    var d := Kicked(a, dt).vel.Sub(a.vel);
    assert d.x == f.x * (1.0 / m) && d.y == f.y * (1.0 / m) && d.z == f.z * (1.0 / m);
    assert m * (f.x * (1.0 / m)) == f.x;
    assert m * (f.y * (1.0 / m)) == f.y;
    assert m * (f.z * (1.0 / m)) == f.z;
  }

  /** The half-kick of every atom. */
  function KickAll(atoms: seq<Atom>, dt: real): (r: seq<Atom>)
    ensures |r| == |atoms|
    ensures forall k | 0 <= k < |atoms| :: r[k] == Kicked(atoms[k], dt)
  {
    seq(|atoms|, k requires 0 <= k < |atoms| => Kicked(atoms[k], dt))
  }

  /** One drift of an atom: x += dt v, then the box. */
  function Drifted(a: Atom, dt: real, hw: real): (r: Atom) {
    Reflected(a.(pos := a.pos.Add(a.vel.Scale(dt))), hw, 3)
  }

  /** Drifting changes an atom's position and velocity only, and its new
      position is in the box. */
  lemma DriftedFacts(a: Atom, dt: real, hw: real)
    ensures Drifted(a, dt, hw) == a.(pos := Drifted(a, dt, hw).pos, vel := Drifted(a, dt, hw).vel)
    ensures hw >= 0.0 ==> InBox(Drifted(a, dt, hw).pos, hw)
  {
    var b := a.(pos := a.pos.Add(a.vel.Scale(dt)));
    ReflectedFields(b, hw, 3);
    if hw >= 0.0 {
      BoundaryInBox(b, hw);
    }
  }

  /** The drift of every atom. */
  function DriftAll(atoms: seq<Atom>, dt: real, hw: real): (r: seq<Atom>)
    ensures |r| == |atoms|
    ensures forall k | 0 <= k < |atoms| :: r[k] == Drifted(atoms[k], dt, hw)
  {
    seq(|atoms|, k requires 0 <= k < |atoms| => Drifted(atoms[k], dt, hw))
  }

  /** Every atom with its net force from the engine. */
  function WithForces(engine: InteractionEngine, atoms: seq<Atom>, length: Vec3 -> real): (r: seq<Atom>)
    requires AllHaveElements(atoms)
    ensures |r| == |atoms|
    ensures forall k | 0 <= k < |atoms| :: r[k] == atoms[k].(force := engine.NetForce(atoms, k, length))
  {
    seq(|atoms|, k requires 0 <= k < |atoms| => atoms[k].(force := engine.NetForce(atoms, k, length)))
  }

  // ---- the thermostat ----------------------------------------------------------

  /** One atom's kinetic energy m v.v / 2. */
  function AtomEnergy(a: Atom): (r: real) {
    0.5 * a.mass * a.vel.Dot(a.vel)
  }

  /** Total kinetic energy. */
  function KineticEnergy(atoms: seq<Atom>): (r: real) {
    if atoms == [] then 0.0 else KineticEnergy(atoms[..|atoms| - 1]) + AtomEnergy(atoms[|atoms| - 1])
  }

  /** The kinetic energy of a population without negative masses is not
      negative. */
  lemma {:induction false} KineticEnergyNonNegative(atoms: seq<Atom>)
    requires forall k | 0 <= k < |atoms| :: atoms[k].mass >= 0.0
    ensures KineticEnergy(atoms) >= 0.0
  {
    if atoms != [] {
      var a := atoms[|atoms| - 1];
      KineticEnergyNonNegative(atoms[..|atoms| - 1]);
      assert a.vel.Dot(a.vel) >= 0.0;
      assert a.mass * a.vel.Dot(a.vel) >= 0.0;
      assert AtomEnergy(a) >= 0.0;
    }
  }

  /** The instantaneous temperature (2/3) (KE / N) / kB, floored at 1 K. */
  function CurrentTemperature(atoms: seq<Atom>): (t: real)
    requires |atoms| > 0
    ensures t >= 1.0
  {
    MaxR((2.0 / 3.0) * (KineticEnergy(atoms) / |atoms| as real) / KB, 1.0)
  }

  /** The Berendsen factor sqrt(1 + (dt/tau)(T0/T - 1)), clamped to
      [0.9, 1.1]. */
  function Factor(atoms: seq<Atom>, dt: real, targetT: real, tau: real, sqrt: real -> real): (lam: real)
    requires |atoms| > 0 && tau != 0.0
    ensures 0.9 <= lam <= 1.1
  {
    ClampR(sqrt(Relaxation(dt, tau, targetT, CurrentTemperature(atoms))), 0.9, 1.1)
  }

  /** The quantity under the root: 1 + (dt/tau)(T0/T - 1). */
  function Relaxation(dt: real, tau: real, targetT: real, currentT: real): real
    requires tau != 0.0 && currentT != 0.0
  {
    1.0 + (dt / tau) * ((targetT / currentT) - 1.0)
  }

  /** With a step no longer than tau and a non-negative target, the quantity
      under the root is never negative, so the root is a real number. */
  lemma RelaxationNonNegative(dt: real, tau: real, targetT: real, currentT: real)
    requires 0.0 < tau && 0.0 <= dt <= tau && 0.0 <= targetT && 0.0 < currentT
    ensures Relaxation(dt, tau, targetT, currentT) >= 0.0
  {
    var r := dt / tau;
    assert r * tau == dt;
    assert 0.0 <= r <= 1.0;
    var x := targetT / currentT;
    assert x * currentT == targetT;
    assert x >= 0.0;
    assert r * x >= 0.0;
    assert r * (x - 1.0) >= -1.0;
  }

  /** Every velocity scaled by lam. */
  function ScaleAll(atoms: seq<Atom>, lam: real): (r: seq<Atom>)
    ensures |r| == |atoms|
    ensures forall k | 0 <= k < |atoms| :: r[k] == atoms[k].(vel := atoms[k].vel.Scale(lam))
  {
    seq(|atoms|, k requires 0 <= k < |atoms| => atoms[k].(vel := atoms[k].vel.Scale(lam)))
  }

  /** The thermostat's effect: nothing for an empty population or a target
      below 1 K, otherwise every velocity scaled by the same factor. */
  function Thermostatted(atoms: seq<Atom>, dt: real, targetT: real, tau: real, sqrt: real -> real): seq<Atom>
    requires tau != 0.0
  {
    if |atoms| == 0 || targetT < 1.0 then atoms else ScaleAll(atoms, Factor(atoms, dt, targetT, tau, sqrt))
  }

  /** At the target temperature (and with sqrt(1) = 1) the thermostat leaves
      the velocities as they are. */
  lemma ThermostatAtTarget(atoms: seq<Atom>, dt: real, targetT: real, tau: real, sqrt: real -> real)
    requires |atoms| > 0 && tau != 0.0 && targetT >= 1.0 && sqrt(1.0) == 1.0
    requires CurrentTemperature(atoms) == targetT
    ensures Thermostatted(atoms, dt, targetT, tau, sqrt) == atoms
  {
    assert targetT / CurrentTemperature(atoms) == 1.0;
    assert Factor(atoms, dt, targetT, tau, sqrt) == 1.0;
    var r := ScaleAll(atoms, 1.0);
    forall k | 0 <= k < |atoms|
      ensures r[k] == atoms[k]
    {
      assert atoms[k].vel.Scale(1.0) == atoms[k].vel;
    }
  }

  /** Scaling every velocity by lam scales the kinetic energy by lam^2. */
  lemma {:induction false} ScaleAllEnergy(atoms: seq<Atom>, lam: real)
    ensures KineticEnergy(ScaleAll(atoms, lam)) == lam * lam * KineticEnergy(atoms)
  {
    if atoms != [] {
      var n := |atoms| - 1;
      var r := ScaleAll(atoms, lam);
      assert r[..n] == ScaleAll(atoms[..n], lam);
      ScaleAllEnergy(atoms[..n], lam);
      ScaledAtomEnergy(atoms[n], lam);
      var sq := lam * lam;
      var before := KineticEnergy(atoms[..n]);
      var own := AtomEnergy(atoms[n]);
      assert r[n] == atoms[n].(vel := atoms[n].vel.Scale(lam));
      assert KineticEnergy(r) == sq * before + sq * own;
      assert sq * (before + own) == sq * before + sq * own;
    }
  }

  lemma ScaledAtomEnergy(a: Atom, lam: real)
    ensures AtomEnergy(a.(vel := a.vel.Scale(lam))) == lam * lam * AtomEnergy(a)
  {
    var v := a.vel;
    assert v.Scale(lam).Dot(v.Scale(lam)) == lam * lam * v.Dot(v);
  }

  // ---- the simulation ----------------------------------------------------------

  class Simulation {
    /** Half-width of the reflective box. */
    var worldSize: real
    var simTime: real
    var stepCount: int
    var atoms: seq<Atom>
    const interactions: InteractionEngine
    const tracker: MoleculeTracker

    /** The population's standing shape: every atom has element data, the
        bond lists form a well-formed graph, and the counter is not
        negative. */
    ghost predicate Valid()
      reads this
    {
      AllHaveElements(atoms) && WellFormed(atoms) && stepCount >= 0
    }

    constructor ()
      ensures Valid() && fresh(interactions) && fresh(tracker)
      ensures atoms == [] && worldSize == 50.0 && simTime == 0.0 && stepCount == 0
      ensures tracker.molecules == [] && interactions.temperature == 300.0
    {
      worldSize := 50.0;
      simTime := 0.0;
      stepCount := 0;
      atoms := [];
      interactions := new InteractionEngine();
      tracker := new MoleculeTracker();
    }

    /** The atom Atom::init makes for atomic number z, placed at pos with
        velocity vel. */
    static ghost function Spawned(table: ElementTable, z: int, pos: Vec3, vel: Vec3): Atom {
      var e := Get(table, z);
      UpdateEffectiveValence(DefaultAtom.(elementZ := z, element := Some(e), electrons := Configuration(z),
        charge := 0, mass := e.atomicMass, visualRadius := MaxR(e.atomicRadius / 100.0, 0.5), pos := pos, vel := vel))
    }

    /** spawnAtom: initialises an atom of element z at pos with the given
        initial velocity, appends it, updates the bonds and rebuilds the
        molecules. The population grows by exactly one; the new last atom has
        the requested element and position; the bond update changes only
        electrons, charges and bond lists and keeps the totals. */
    method SpawnAtom(table: ElementTable, z: int, pos: Vec3, vel: Vec3, length: Vec3 -> real)
      requires Valid() && Symmetric(length)
      requires IonicApart(atoms + [Spawned(table, z, pos, vel)], length, interactions.ionicThreshold)
      modifies this, tracker
      ensures Valid()
      ensures |atoms| == old(|atoms|) + 1
      ensures SameAtoms(old(atoms) + [Spawned(table, z, pos, vel)], atoms)
      ensures interactions.Rebonded(old(atoms) + [Spawned(table, z, pos, vel)], atoms, length)
      ensures atoms[|atoms| - 1].elementZ == z && atoms[|atoms| - 1].pos == pos
      ensures TotalCharge(atoms) == old(TotalCharge(atoms)) + Spawned(table, z, pos, vel).charge
      ensures TotalElectrons(atoms) == old(TotalElectrons(atoms)) + |Spawned(table, z, pos, vel).electrons|
      ensures tracker.molecules == Molecules.Molecules(atoms, |atoms|)
      ensures simTime == old(simTime) && stepCount == old(stepCount) && worldSize == old(worldSize)
    {
      Grow(table, z, pos, vel, length);
      tracker.Update(atoms, |atoms|);
    }

    /** The atom-vector part of spawnAtom: the append and the bond update. */
    method Grow(table: ElementTable, z: int, pos: Vec3, vel: Vec3, length: Vec3 -> real)
      requires Valid() && Symmetric(length)
      requires IonicApart(atoms + [Spawned(table, z, pos, vel)], length, interactions.ionicThreshold)
      modifies this
      ensures Valid()
      ensures SameAtoms(old(atoms) + [Spawned(table, z, pos, vel)], atoms)
      ensures interactions.Rebonded(old(atoms) + [Spawned(table, z, pos, vel)], atoms, length)
      ensures atoms[|atoms| - 1].elementZ == z && atoms[|atoms| - 1].pos == pos
      ensures TotalCharge(atoms) == old(TotalCharge(atoms)) + Spawned(table, z, pos, vel).charge
      ensures TotalElectrons(atoms) == old(TotalElectrons(atoms)) + |Spawned(table, z, pos, vel).electrons|
      ensures simTime == old(simTime) && stepCount == old(stepCount) && worldSize == old(worldSize)
    {
      atoms := Joined(atoms, table, z, pos, vel, length);
    }

    /** The population after spawnAtom's append and bond update, as a
        value. */
    method Joined(atoms: seq<Atom>, table: ElementTable, z: int, pos: Vec3, vel: Vec3, length: Vec3 -> real)
      returns (out: seq<Atom>)
      requires AllHaveElements(atoms) && WellFormed(atoms) && Symmetric(length)
      requires IonicApart(atoms + [Spawned(table, z, pos, vel)], length, interactions.ionicThreshold)
      ensures AllHaveElements(out) && WellFormed(out)
      ensures SameAtoms(atoms + [Spawned(table, z, pos, vel)], out)
      ensures interactions.Rebonded(atoms + [Spawned(table, z, pos, vel)], out, length)
      ensures out[|out| - 1].elementZ == z && out[|out| - 1].pos == pos
      ensures TotalCharge(out) == TotalCharge(atoms) + Spawned(table, z, pos, vel).charge
      ensures TotalElectrons(out) == TotalElectrons(atoms) + |Spawned(table, z, pos, vel).electrons|
    {
      var a := Init(DefaultAtom, table, z);
      a := a.(pos := pos);
      a := a.(vel := vel);
      assert a == Spawned(table, z, pos, vel);
      var grown := atoms + [a];
      PushUnbonded(atoms, a);
      TotalsPush(atoms, a);
      out := interactions.UpdateBonds(grown, length);
      assert SameAtom(grown[|grown| - 1], out[|out| - 1]);
    }

    /** clear: no atoms, an empty reaction log, the clock and counter at 0,
        and no molecules. */
    method Clear()
      modifies this, interactions, tracker
      ensures Valid()
      ensures atoms == [] && interactions.reactionLog == [] && simTime == 0.0 && stepCount == 0
      ensures tracker.molecules == []
      ensures worldSize == old(worldSize)
      ensures interactions.temperature == old(interactions.temperature)
      ensures interactions.simTime == old(interactions.simTime)
      ensures interactions.bondFormedCount == old(interactions.bondFormedCount)
      ensures interactions.bondBrokenCount == old(interactions.bondBrokenCount)
    {
      atoms := [];
      interactions.reactionLog := [];
      simTime := 0.0;
      stepCount := 0;
      tracker.Update(atoms, 0);
    }

    /** applyBoundary: the atom after the three axes of the reflective box. */
    method ApplyBoundary(a: Atom) returns (r: Atom)
      ensures r == Reflected(a, worldSize, 3)
      ensures worldSize >= 0.0 ==> InBox(r.pos, worldSize)
    {
      var hw := worldSize;
      r := a;
      for axis := 0 to 3
        invariant r == Reflected(a, hw, axis)
      {
        if r.pos.At(axis) > hw {
          r := r.(pos := r.pos.With(axis, hw));
          r := r.(vel := r.vel.With(axis, r.vel.At(axis) * -0.5));
        } else if r.pos.At(axis) < -hw {
          r := r.(pos := r.pos.With(axis, -hw));
          r := r.(vel := r.vel.With(axis, r.vel.At(axis) * -0.5));
        }
      }
      if hw >= 0.0 {
        BoundaryInBox(a, hw);
      }
    }

    /** The drift loop of step: every position advances by dt times its
        velocity and is then put back in the box. */
    method Drift(atoms: seq<Atom>, dt: real) returns (out: seq<Atom>)
      ensures out == DriftAll(atoms, dt, worldSize)
    {
      out := atoms;
      for k := 0 to |atoms|
        invariant |out| == |atoms|
        invariant forall p | 0 <= p < k :: out[p] == Drifted(atoms[p], dt, worldSize)
        invariant forall p | k <= p < |atoms| :: out[p] == atoms[p]
      {
        var a := out[k].(pos := out[k].pos.Add(out[k].vel.Scale(dt)));
        a := ApplyBoundary(a);
        out := out[k := a];
      }
    }

    /** The kinetic-energy loop of the thermostat. */
    method TotalKineticEnergy(atoms: seq<Atom>) returns (ke: real)
      ensures ke == KineticEnergy(atoms)
    {
      ke := 0.0;
      for k := 0 to |atoms|
        invariant ke == KineticEnergy(atoms[..k])
      {
        assert atoms[..k + 1][..k] == atoms[..k];
        ke := ke + 0.5 * atoms[k].mass * atoms[k].vel.Dot(atoms[k].vel);
        assert ke == KineticEnergy(atoms[..k + 1]);
      }
      assert atoms[..|atoms|] == atoms;
    }

    /** berendsenThermostat: nothing for no atoms or a target below 1 K;
        otherwise every velocity is scaled by one factor in [0.9, 1.1]. */
    method BerendsenThermostat(atoms: seq<Atom>, dt: real, targetT: real, tau: real, sqrt: real -> real)
      returns (out: seq<Atom>)
      requires tau != 0.0
      ensures out == Thermostatted(atoms, dt, targetT, tau, sqrt)
    {
      out := atoms;
      if |atoms| == 0 || targetT < 1.0 {
        return;
      }
      var totalKE := TotalKineticEnergy(atoms);
      var currentT := (2.0 / 3.0) * (totalKE / |atoms| as real) / KB;
      if currentT < 1.0 {
        currentT := 1.0;
      }
      assert currentT == CurrentTemperature(atoms);
      var lambda := sqrt(1.0 + (dt / tau) * ((targetT / currentT) - 1.0));
      lambda := ClampR(lambda, 0.9, 1.1);
      assert 1.0 + (dt / tau) * ((targetT / currentT) - 1.0) == Relaxation(dt, tau, targetT, currentT);
      assert lambda == Factor(atoms, dt, targetT, tau, sqrt);
      var scaled := atoms;
      for k := 0 to |atoms|
        invariant |scaled| == |atoms|
        invariant forall p | 0 <= p < k :: scaled[p] == atoms[p].(vel := atoms[p].vel.Scale(lambda))
        invariant forall p | k <= p < |atoms| :: scaled[p] == atoms[p]
      {
        scaled := scaled[k := scaled[k].(vel := scaled[k].vel.Scale(lambda))];
      }
      out := scaled;
    }
    /** The atoms after the integration part of step (before the bond
        update): half-kick, drift into the box, new forces, half-kick, and
        the thermostat at the engine's temperature with tau = 100. */
    static ghost function Integrated(engine: InteractionEngine, atoms: seq<Atom>, dt: real, hw: real,
                                     temperature: real, length: Vec3 -> real, sqrt: real -> real): seq<Atom>
      requires AllHaveElements(atoms)
    {
      var drifted := DriftAll(KickAll(atoms, dt), dt, hw);
      KeepsElements(KickAll(atoms, dt), drifted, dt, hw);
      Thermostatted(KickAll(WithForces(engine, drifted, length), dt), dt, temperature, 100.0, sqrt)
    }

    /** step: nothing at all for an empty population. Otherwise the
        velocity-Verlet integration with the thermostat; every tenth step
        (counting from step 0) the bond update, and on step 0 the rebuild of
        the molecule list; then the clock advances by dt and the counter by
        one. Between bond updates the bond graph, the charges and the
        electrons stay as they are; a bond update keeps the totals. */
    method Step(dt: real, length: Vec3 -> real, sqrt: real -> real)
      requires Valid() && Symmetric(length)
      requires stepCount % 10 == 0 && |atoms| > 0 ==>
        IonicApart(DriftAll(KickAll(atoms, dt), dt, worldSize), length, interactions.ionicThreshold)
      modifies this, interactions, tracker
      ensures Valid() && worldSize == old(worldSize) && |atoms| == old(|atoms|)
      ensures old(|atoms|) == 0 ==>
        (atoms == old(atoms) && simTime == old(simTime) && stepCount == old(stepCount)
         && interactions.simTime == old(interactions.simTime) && tracker.molecules == old(tracker.molecules))
      ensures old(|atoms|) > 0 ==>
        (stepCount == old(stepCount) + 1 && simTime == old(simTime) + dt && interactions.simTime == old(simTime))
      ensures old(|atoms|) > 0 && old(stepCount) % 10 != 0 ==>
        atoms == Integrated(interactions, old(atoms), dt, old(worldSize), old(interactions.temperature), length, sqrt)
      ensures old(|atoms|) > 0 && old(stepCount) % 10 == 0 ==>
        SameAtoms(Integrated(interactions, old(atoms), dt, old(worldSize), old(interactions.temperature), length, sqrt), atoms)
      ensures old(|atoms|) > 0 && old(stepCount) % 10 == 0 ==>
        interactions.Rebonded(Integrated(interactions, old(atoms), dt, old(worldSize), old(interactions.temperature), length, sqrt),
                              atoms, length)
      ensures old(stepCount) != 0 ==> tracker.molecules == old(tracker.molecules)
      ensures old(|atoms|) > 0 && old(stepCount) == 0 ==> tracker.molecules == Molecules.Molecules(atoms, |atoms|)
      ensures TotalCharge(atoms) == old(TotalCharge(atoms)) && TotalElectrons(atoms) == old(TotalElectrons(atoms))
      ensures worldSize >= 0.0 ==> forall k | 0 <= k < |atoms| :: InBox(atoms[k].pos, worldSize)
      ensures interactions.temperature == old(interactions.temperature)
      ensures interactions.bondFormedCount == old(interactions.bondFormedCount)
      ensures interactions.bondBrokenCount == old(interactions.bondBrokenCount)
      ensures interactions.reactionLog == old(interactions.reactionLog)
    {
      if |atoms| == 0 {
        return;
      }
      StepPopulated(dt, length, sqrt);
    }

    /** step on a non-empty population. */
    method StepPopulated(dt: real, length: Vec3 -> real, sqrt: real -> real)
      requires Valid() && Symmetric(length) && |atoms| > 0
      requires stepCount % 10 == 0 ==>
        IonicApart(DriftAll(KickAll(atoms, dt), dt, worldSize), length, interactions.ionicThreshold)
      modifies this, interactions, tracker
      ensures Valid() && worldSize == old(worldSize) && |atoms| == old(|atoms|)
      ensures stepCount == old(stepCount) + 1 && simTime == old(simTime) + dt && interactions.simTime == old(simTime)
      ensures old(stepCount) % 10 != 0 ==>
        atoms == Integrated(interactions, old(atoms), dt, old(worldSize), old(interactions.temperature), length, sqrt)
      ensures old(stepCount) % 10 == 0 ==>
        SameAtoms(Integrated(interactions, old(atoms), dt, old(worldSize), old(interactions.temperature), length, sqrt), atoms)
      ensures old(stepCount) % 10 == 0 ==>
        interactions.Rebonded(Integrated(interactions, old(atoms), dt, old(worldSize), old(interactions.temperature), length, sqrt),
                              atoms, length)
      ensures old(stepCount) != 0 ==> tracker.molecules == old(tracker.molecules)
      ensures old(stepCount) == 0 ==> tracker.molecules == Molecules.Molecules(atoms, |atoms|)
      ensures TotalCharge(atoms) == old(TotalCharge(atoms)) && TotalElectrons(atoms) == old(TotalElectrons(atoms))
      ensures worldSize >= 0.0 ==> forall k | 0 <= k < |atoms| :: InBox(atoms[k].pos, worldSize)
      ensures interactions.temperature == old(interactions.temperature)
      ensures interactions.bondFormedCount == old(interactions.bondFormedCount)
      ensures interactions.bondBrokenCount == old(interactions.bondBrokenCount)
      ensures interactions.reactionLog == old(interactions.reactionLog)
    {
      ghost var start := atoms;
      ghost var drifted := Integrate(dt, length, sqrt);
      ghost var integrated := atoms;
      if stepCount % 10 == 0 {
        IntegratedSites(start, drifted, atoms, dt, worldSize);
        IonicApartSameSites(drifted, atoms, length, interactions.ionicThreshold);
      }
      Finish(dt, length);
      assert forall k | 0 <= k < |atoms| :: atoms[k].pos == integrated[k].pos;
    }

    /** The tail of a non-empty step: the bond update on every tenth step,
        then the clock and the counter. */
    method Finish(dt: real, length: Vec3 -> real)
      requires Valid() && Symmetric(length)
      requires stepCount % 10 == 0 ==> IonicApart(atoms, length, interactions.ionicThreshold)
      modifies this, tracker
      ensures Valid() && worldSize == old(worldSize) && |atoms| == old(|atoms|)
      ensures stepCount == old(stepCount) + 1 && simTime == old(simTime) + dt
      ensures old(stepCount) % 10 != 0 ==> atoms == old(atoms)
      ensures old(stepCount) != 0 ==> tracker.molecules == old(tracker.molecules)
      ensures old(stepCount) % 10 == 0 ==> SameAtoms(old(atoms), atoms)
      ensures old(stepCount) % 10 == 0 ==> interactions.Rebonded(old(atoms), atoms, length)
      ensures old(stepCount) == 0 ==> tracker.molecules == Molecules.Molecules(atoms, |atoms|)
      ensures TotalCharge(atoms) == old(TotalCharge(atoms)) && TotalElectrons(atoms) == old(TotalElectrons(atoms))
      ensures forall k | 0 <= k < |atoms| :: atoms[k].pos == old(atoms[k].pos)
    {
      if stepCount % 10 == 0 {
        BondPhase(length);
      }
      Tick(dt);
    }

    /** The clock and the counter advance; nothing else changes. */
    method Tick(dt: real)
      requires Valid()
      modifies this
      ensures Valid() && atoms == old(atoms) && worldSize == old(worldSize)
      ensures stepCount == old(stepCount) + 1 && simTime == old(simTime) + dt
    {
      simTime := simTime + dt;
      stepCount := stepCount + 1;
    }

    /** The integration part of step: half-kick, drift into the box, the
        engine's forces at the new positions, half-kick, thermostat. Only
        positions, velocities and forces change. */
    method Integrate(dt: real, length: Vec3 -> real, sqrt: real -> real) returns (ghost drifted: seq<Atom>)
      requires Valid() && |atoms| > 0
      modifies this, interactions
      ensures atoms == Integrated(interactions, old(atoms), dt, old(worldSize), old(interactions.temperature), length, sqrt)
      ensures drifted == DriftAll(KickAll(old(atoms), dt), dt, worldSize)
      ensures |atoms| == old(|atoms|)
      ensures forall k | 0 <= k < |atoms| ::
        atoms[k] == old(atoms[k]).(pos := drifted[k].pos, vel := atoms[k].vel, force := atoms[k].force)
      ensures Valid()
      ensures TotalCharge(atoms) == old(TotalCharge(atoms)) && TotalElectrons(atoms) == old(TotalElectrons(atoms))
      ensures worldSize >= 0.0 ==> forall k | 0 <= k < |atoms| :: InBox(atoms[k].pos, worldSize)
      ensures simTime == old(simTime) && stepCount == old(stepCount) && worldSize == old(worldSize)
      ensures interactions.simTime == simTime
      ensures interactions.temperature == old(interactions.temperature)
      ensures interactions.bondFormedCount == old(interactions.bondFormedCount)
      ensures interactions.bondBrokenCount == old(interactions.bondBrokenCount)
      ensures interactions.reactionLog == old(interactions.reactionLog)
    {
      ghost var start := atoms;
      interactions.simTime := simTime;
      var cooled, d := Advance(atoms, dt, length, sqrt);
      drifted := d;
      SameBondData(start, cooled);
      atoms := cooled;
    }

    /** The integration on the atom vector as a value. */
    method Advance(atoms: seq<Atom>, dt: real, length: Vec3 -> real, sqrt: real -> real)
      returns (out: seq<Atom>, ghost drifted: seq<Atom>)
      requires AllHaveElements(atoms)
      ensures out == Integrated(interactions, atoms, dt, worldSize, interactions.temperature, length, sqrt)
      ensures drifted == DriftAll(KickAll(atoms, dt), dt, worldSize)
      ensures |out| == |atoms|
      ensures forall k | 0 <= k < |atoms| ::
        out[k] == atoms[k].(pos := drifted[k].pos, vel := out[k].vel, force := out[k].force)
      ensures worldSize >= 0.0 ==> forall k | 0 <= k < |out| :: InBox(out[k].pos, worldSize)
    {
      var kicked := HalfKick(atoms, dt);
      var d := Drift(kicked, dt);
      drifted := d;
      KeepsElements(kicked, d, dt, worldSize);
      var forced := interactions.ComputeForces(d, length);
      assert forced == WithForces(interactions, d, length);
      var kicked2 := HalfKick(forced, dt);
      out := BerendsenThermostat(kicked2, dt, interactions.temperature, 100.0, sqrt);
      IntegrationKeeps(atoms, kicked, d, forced, out, dt, worldSize);
    }

    /** The bond part of step: updateBonds, and the molecule rebuild when
        the bond counters moved or on step 0. */
    method BondPhase(length: Vec3 -> real)
      requires Valid() && Symmetric(length) && IonicApart(atoms, length, interactions.ionicThreshold)
      modifies this, tracker
      ensures Valid() && SameAtoms(old(atoms), atoms)
      ensures interactions.Rebonded(old(atoms), atoms, length)
      ensures stepCount != 0 ==> tracker.molecules == old(tracker.molecules)
      ensures TotalCharge(atoms) == old(TotalCharge(atoms)) && TotalElectrons(atoms) == old(TotalElectrons(atoms))
      ensures stepCount == 0 ==> tracker.molecules == Molecules.Molecules(atoms, |atoms|)
      ensures simTime == old(simTime) && stepCount == old(stepCount) && worldSize == old(worldSize)
    {
      var oldCount := interactions.bondFormedCount - interactions.bondBrokenCount;
      Rebond(length);
      var newCount := interactions.bondFormedCount - interactions.bondBrokenCount;
      if oldCount != newCount || stepCount == 0 {
        tracker.Update(atoms, |atoms|);
      }
    }

    /** The updateBonds call of the bond part of step, on the atom vector. */
    method Rebond(length: Vec3 -> real)
      requires Valid() && Symmetric(length) && IonicApart(atoms, length, interactions.ionicThreshold)
      modifies this
      ensures Valid() && SameAtoms(old(atoms), atoms)
      ensures interactions.Rebonded(old(atoms), atoms, length)
      ensures TotalCharge(atoms) == old(TotalCharge(atoms)) && TotalElectrons(atoms) == old(TotalElectrons(atoms))
      ensures simTime == old(simTime) && stepCount == old(stepCount) && worldSize == old(worldSize)
    {
      var out := interactions.UpdateBonds(atoms, length);
      assert AllHaveElements(out) && WellFormed(out);
      atoms := out;
    }
  }

  /** Two populations whose atoms agree in everything but position,
      velocity and force have the same bond graph, elements and totals. */
  lemma SameBondData(a: seq<Atom>, b: seq<Atom>)
    requires |a| == |b|
    requires forall k | 0 <= k < |a| :: b[k] == a[k].(pos := b[k].pos, vel := b[k].vel, force := b[k].force)
    ensures AllHaveElements(a) ==> AllHaveElements(b)
    ensures WellFormed(a) ==> WellFormed(b)
    ensures TotalCharge(a) == TotalCharge(b) && TotalElectrons(a) == TotalElectrons(b)
  {
    assert forall k | 0 <= k < |a| :: b[k].bonds == a[k].bonds;
    if WellFormed(a) {
      forall k, p | 0 <= k < |b| && 0 <= p < |b[k].bonds|
        ensures HasMirror(b, k, p)
      {
        assert HasMirror(a, k, p);
        assert b[a[k].bonds[p].otherAtomIdx].bonds == a[a[k].bonds[p].otherAtomIdx].bonds;
      }
    }
    SameTotals(a, b);
  }

  lemma {:induction false} SameTotals(a: seq<Atom>, b: seq<Atom>)
    requires |a| == |b|
    requires forall k | 0 <= k < |a| :: b[k].charge == a[k].charge && |b[k].electrons| == |a[k].electrons|
    ensures TotalCharge(a) == TotalCharge(b) && TotalElectrons(a) == TotalElectrons(b)
  {
    if a != [] {
      SameTotals(a[..|a| - 1], b[..|b| - 1]);
    }
  }

  /** Drifting keeps each atom's element data. */
  lemma KeepsElements(atoms: seq<Atom>, drifted: seq<Atom>, dt: real, hw: real)
    requires drifted == DriftAll(atoms, dt, hw)
    ensures forall k | 0 <= k < |atoms| :: drifted[k].element == atoms[k].element
  {
    forall k | 0 <= k < |atoms|
      ensures drifted[k].element == atoms[k].element
    {
      DriftedFacts(atoms[k], dt, hw);
    }
  }

  /** The integration changes only positions, velocities and forces: element
      data, bond lists, electrons and charges are kept, and every position
      is the drifted one. */
  lemma IntegrationKeeps(start: seq<Atom>, kicked: seq<Atom>, drifted: seq<Atom>, forced: seq<Atom>,
                         cooled: seq<Atom>, dt: real, hw: real)
    requires kicked == KickAll(start, dt) && drifted == DriftAll(kicked, dt, hw)
    requires |forced| == |drifted| && forall k | 0 <= k < |drifted| :: forced[k] == drifted[k].(force := forced[k].force)
    requires |cooled| == |forced| && forall k | 0 <= k < |forced| :: cooled[k] == forced[k].(vel := cooled[k].vel)
    ensures |cooled| == |start|
    ensures forall k | 0 <= k < |start| ::
      cooled[k] == start[k].(pos := drifted[k].pos, vel := cooled[k].vel, force := cooled[k].force)
    ensures hw >= 0.0 ==> forall k | 0 <= k < |cooled| :: InBox(cooled[k].pos, hw)
  {
    forall k | 0 <= k < |start|
      ensures cooled[k] == start[k].(pos := drifted[k].pos, vel := cooled[k].vel, force := cooled[k].force)
      ensures hw >= 0.0 ==> InBox(cooled[k].pos, hw)
    {
      DriftedFacts(kicked[k], dt, hw);
    }
  }

  /** After the integration every atom sits where the drift put it and
      keeps its element. */
  lemma IntegratedSites(start: seq<Atom>, drifted: seq<Atom>, out: seq<Atom>, dt: real, hw: real)
    requires drifted == DriftAll(KickAll(start, dt), dt, hw)
    requires |out| == |start|
    requires forall k | 0 <= k < |start| :: out[k] == start[k].(pos := drifted[k].pos, vel := out[k].vel, force := out[k].force)
    ensures SameSites(drifted, out)
  {
    KeepsElements(KickAll(start, dt), drifted, dt, hw);
  }

  /** The half-kick loop of step. */
  method HalfKick(atoms: seq<Atom>, dt: real) returns (out: seq<Atom>)
    ensures out == KickAll(atoms, dt)
  {
    out := atoms;
    for k := 0 to |atoms|
      invariant |out| == |atoms|
      invariant forall p | 0 <= p < k :: out[p] == Kicked(atoms[p], dt)
      invariant forall p | k <= p < |atoms| :: out[p] == atoms[p]
    {
      if out[k].mass > 0.0 {
        var invMass := 1.0 / out[k].mass;
        out := out[k := out[k].(vel := out[k].vel.Add(out[k].force.Scale(0.5 * dt).Scale(invMass)))];
      }
    }
  }

  /** Appending an atom without bonds keeps the graph well formed. */
  lemma PushUnbonded(atoms: seq<Atom>, a: Atom)
    requires WellFormed(atoms) && a.bonds == []
    ensures WellFormed(atoms + [a])
  {
    var s := atoms + [a];
    forall k, p | 0 <= k < |s| && 0 <= p < |s[k].bonds|
      ensures HasMirror(s, k, p)
    {
      assert k < |atoms| && s[k] == atoms[k];
      assert HasMirror(atoms, k, p);
      assert s[atoms[k].bonds[p].otherAtomIdx] == atoms[atoms[k].bonds[p].otherAtomIdx];
    }
  }

  /** The totals of a population with one more atom. */
  lemma TotalsPush(atoms: seq<Atom>, a: Atom)
    ensures TotalCharge(atoms + [a]) == TotalCharge(atoms) + a.charge
    ensures TotalElectrons(atoms + [a]) == TotalElectrons(atoms) + |a.electrons|
  {
    assert (atoms + [a])[..|atoms|] == atoms;
  }
}
