/** An atom's identity, electron list, charge and bond list, and the
    bookkeeping operations that move electrons and count bonds. Atoms are
    kept by value in the simulation's atom vector, so an operation that
    updates an atom returns the updated record. */
module Atoms {
  import opened Wrappers
  import opened Vectors
  import opened Elements
  import opened Electrons

  datatype BondType = Ionic | Covalent | Metallic

  /** One entry of an atom's bond list: the partner's index, the kind of
      bond, its order (1, 2 or 3) and its strength in eV. */
  datatype Bond = Bond(otherAtomIdx: int, kind: BondType, order: int, strength: real)

  /** The default-constructed bond. */
  const DefaultBond := Bond(-1, Covalent, 1, 1.0)

  /** An atom. `element` is `None` when the atom has no element record (nullptr); `mass` and
      `effectiveValence` are the fields the implementation keeps besides the
      declared ones. */
  datatype Atom = Atom(
    elementZ: int,
    element: Option<ElementData>,
    pos: Vec3,
    vel: Vec3,
    force: Vec3,
    electrons: seq<Electron>,
    charge: int,
    bonds: seq<Bond>,
    visualRadius: real,
    mass: real,
    effectiveValence: int)

  /** A default-constructed atom. */
  const DefaultAtom := Atom(1, None, Zero, Zero, Zero, [], 0, [], 1.0, 0.0, 0)

  /** The net charge matches the electron count: Z - |electrons|. */
  predicate ChargeBalanced(a: Atom) {
    a.charge + |a.electrons| == a.elementZ
  }

  /** Sum of the orders of a bond list. */
  function BondOrderSum(bonds: seq<Bond>): (r: int) {
    if bonds == [] then 0 else BondOrderSum(bonds[..|bonds| - 1]) + bonds[|bonds| - 1].order
  }

  lemma BondOrderSumAppend(bonds: seq<Bond>, b: Bond)
    ensures BondOrderSum(bonds + [b]) == BondOrderSum(bonds) + b.order
  {
    assert (bonds + [b])[..|bonds|] == bonds;
  }

  /** totalBondOrder: sums the order of every entry of the bond list. */
  method TotalBondOrder(a: Atom) returns (total: int)
    ensures total == BondOrderSum(a.bonds)
  {
    total := 0;
    var i := 0;
    while i < |a.bonds|
      invariant 0 <= i <= |a.bonds|
      invariant total == BondOrderSum(a.bonds[..i])
    {
      assert a.bonds[..i + 1][..i] == a.bonds[..i];
      total := total + a.bonds[i].order;
      i := i + 1;
    }
    assert a.bonds[..i] == a.bonds;
  }

  /** availableValenceElectrons: the valence electrons not yet used by bonds,
      never negative; 0 for an atom without element data. */
  function AvailableValence(a: Atom): (r: int)
    ensures r >= 0
    ensures a.element.None? ==> r == 0
    ensures a.element.Some? ==> r >= a.element.value.valenceElectrons - BondOrderSum(a.bonds)
    ensures a.element.Some? && r > 0 ==> r == a.element.value.valenceElectrons - BondOrderSum(a.bonds)
  {
    if a.element.None? then 0
    else Max(0, a.element.value.valenceElectrons - BondOrderSum(a.bonds))
  }

  /** updateEffectiveValence: caches the available valence. */
  function UpdateEffectiveValence(a: Atom): (r: Atom)
    ensures r.effectiveValence == AvailableValence(a)
    ensures r.(effectiveValence := a.effectiveValence) == a
  {
    a.(effectiveValence := AvailableValence(a))
  }

  /** The atom's cached valence agrees with its bond list. */
  predicate ValenceCached(a: Atom) {
    a.effectiveValence == AvailableValence(a)
  }

  /** wantsElectron: an acceptor has element data, an electron affinity above
      0.3 eV and fewer than 8 valence electrons. */
  predicate WantsElectron(a: Atom)
    ensures WantsElectron(a) ==> a.element.Some?
    ensures a.element.Some? && a.element.value.valenceElectrons >= 8 ==> !WantsElectron(a)
    ensures a.element.Some? && a.element.value.electronAffinity <= 0.3 ==> !WantsElectron(a)
  {
    a.element.Some? && a.element.value.electronAffinity > 0.3 && a.element.value.valenceElectrons < 8
  }

  /** wantsToLoseElectron: a donor has element data, an ionization energy
      below 8 eV and at most 2 valence electrons. */
  predicate WantsToLoseElectron(a: Atom)
    ensures WantsToLoseElectron(a) ==> a.element.Some?
    ensures a.element.Some? && a.element.value.valenceElectrons > 2 ==> !WantsToLoseElectron(a)
    ensures a.element.Some? && a.element.value.ionizationEnergy >= 8.0 ==> !WantsToLoseElectron(a)
  {
    a.element.Some? && a.element.value.ionizationEnergy < 8.0 && a.element.value.valenceElectrons <= 2
  }

  /** An atom's wish to gain or lose electrons depends on its element only,
      not on its current charge, electrons or bonds. */
  lemma IntentIgnoresState(a: Atom, b: Atom)
    requires a.element == b.element
    ensures WantsElectron(a) <==> WantsElectron(b)
    ensures WantsToLoseElectron(a) <==> WantsToLoseElectron(b)
  {
  }

  /** removeOuterElectron: pops the last electron and returns it; the charge
      rises by one. */
  function RemoveOuterElectron(a: Atom): (r: (Atom, Electron))
    requires |a.electrons| > 0
    ensures r.1 == a.electrons[|a.electrons| - 1]
    ensures r.0.electrons + [r.1] == a.electrons
    ensures r.0.charge == a.charge + 1
    ensures r.0 == a.(electrons := r.0.electrons, charge := r.0.charge, effectiveValence := r.0.effectiveValence)
    ensures ValenceCached(r.0)
    ensures ChargeBalanced(a) ==> ChargeBalanced(r.0)
  {
    var e := a.electrons[|a.electrons| - 1];
    var b := a.(electrons := a.electrons[..|a.electrons| - 1], charge := a.charge + 1);
    (UpdateEffectiveValence(b), e)
  }

  /** addElectron: appends the electron; the charge falls by one. */
  function AddElectron(a: Atom, e: Electron): (r: Atom)
    ensures r.electrons == a.electrons + [e]
    ensures r.charge == a.charge - 1
    ensures r == a.(electrons := r.electrons, charge := r.charge, effectiveValence := r.effectiveValence)
    ensures ValenceCached(r)
    ensures ChargeBalanced(a) ==> ChargeBalanced(r)
  {
    UpdateEffectiveValence(a.(electrons := a.electrons + [e], charge := a.charge - 1))
  }

  /** Giving back the electron just removed restores the atom. */
  lemma AddAfterRemove(a: Atom)
    requires |a.electrons| > 0 && ValenceCached(a)
    ensures var (b, e) := RemoveOuterElectron(a); AddElectron(b, e) == a
  {
    var (b, e) := RemoveOuterElectron(a);
    assert AddElectron(b, e).electrons == a.electrons;
  }

  /** Removing an electron just added restores the atom and hands back that
      electron. */
  lemma RemoveAfterAdd(a: Atom, e: Electron)
    requires ValenceCached(a)
    ensures RemoveOuterElectron(AddElectron(a, e)) == (a, e)
  {
    var b := AddElectron(a, e);
    assert b.electrons[..|b.electrons| - 1] == a.electrons;
  }

  /** Atom::init: looks the element up, fills the electron shells, resets the
      charge, takes the mass and derives the drawing radius (at least 0.5). */
  method Init(a: Atom, table: ElementTable, atomicNumber: int) returns (r: Atom)
    ensures r.elementZ == atomicNumber
    ensures r.element == Some(Get(table, atomicNumber))
    ensures r.electrons == Configuration(atomicNumber)
    ensures r.charge == 0
    ensures r.mass == Get(table, atomicNumber).atomicMass
    ensures r.visualRadius == MaxR(Get(table, atomicNumber).atomicRadius / 100.0, 0.5)
    ensures r.visualRadius >= 0.5
    ensures ValenceCached(r)
    ensures r.pos == a.pos && r.vel == a.vel && r.force == a.force && r.bonds == a.bonds
    ensures 0 <= atomicNumber <= TableCapacity ==> ChargeBalanced(r)
  {
    var element := Get(table, atomicNumber);
    var electrons := FillElectronShells(atomicNumber);
    var radius := element.atomicRadius / 100.0;
    if radius < 0.5 {
      radius := 0.5;
    }
    r := a.(elementZ := atomicNumber, element := Some(element), electrons := electrons,
            charge := 0, mass := element.atomicMass, visualRadius := radius);
    r := UpdateEffectiveValence(r);
  }
}
