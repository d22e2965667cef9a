/** The interaction engine: pairwise forces between atoms and the bond-graph
    protocol that breaks and forms bonds. Distances are computed by a
    caller-supplied `length` function standing for glm::length. */
module Interaction {
  import opened Wrappers
  import opened Vectors
  import opened Elements
  import opened Electrons
  import opened Atoms
  import opened BondGraph

  /** Boltzmann's constant in eV/K. */
  const KB: real := 0.00008617

  /** Spring constant of a bond, eV per square angstrom. */
  const SpringK: real := 5.0

  /** Every atom references element data, as every atom built by Atom::init does. */
  predicate AllHaveElements(atoms: seq<Atom>) {
    forall k | 0 <= k < |atoms| :: atoms[k].element.Some?
  }

  /** Signed size of the spring force along the direction from partner to atom:
      a stretched bond pulls back, a compressed one pushes apart. */
  function SpringMagnitude(eqDist: real, dist: real): (m: real)
    ensures dist == eqDist ==> m == 0.0
    ensures dist > eqDist ==> m < 0.0
    ensures dist < eqDist ==> m > 0.0
  {
    -SpringK * (dist - eqDist)
  }

  /** bondSpringForce: Hooke's law along `dir`, zero at the rest length. */
  function BondSpringForce(eqDist: real, dist: real, dir: Vec3): (f: Vec3)
    ensures dist == eqDist ==> f == Zero
  {
    dir.Scale(SpringMagnitude(eqDist, dist))
  }

  /** r^n; std::pow with a whole exponent. */
  function Pow(r: real, n: nat): real {
    if n == 0 then 1.0 else r * Pow(r, n - 1)
  }

  lemma {:induction false} PowAboveOne(r: real, n: nat)
    requires r > 1.0 && n >= 1
    ensures Pow(r, n) > 1.0
  {
    if n > 1 {
      PowAboveOne(r, n - 1);
      AboveOne(r, Pow(r, n - 1));
    }
  }

  lemma {:induction false} PowSmall(r: real, n: nat)
    requires 0.0 < r <= 0.5 && n >= 1
    ensures 0.0 < Pow(r, n) <= 0.5
    ensures n >= 2 ==> Pow(r, n) <= 0.25
  {
    if n > 1 {
      PowSmall(r, n - 1);
      AtMostHalf(r, Pow(r, n - 1));
    }
  }

  /** The Lennard-Jones bracket 2 r^12 - r^6 for the ratio r = sigma / d:
      positive for a ratio above 1, negative for a ratio in (0, 1/2], zero
      for a zero ratio. */
  function LJBracket(r: real): (v: real)
    ensures r == 0.0 ==> v == 0.0
    ensures r > 1.0 ==> v > 0.0
    ensures 0.0 < r <= 0.5 ==> v < 0.0
  {
    SixthPower(r);
    Bracket(Pow(r, 6))
  }

  /** 2 x^2 - x for x = r^6. */
  function Bracket(x: real): (v: real)
    ensures x == 0.0 ==> v == 0.0
    ensures x > 1.0 ==> v > 0.0
    ensures 0.0 < x < 0.5 ==> v < 0.0
  {
    assert 2.0 * x * x - x == x * (2.0 * x - 1.0);
    if x > 1.0 then
      AboveOne(x, 2.0 * x - 1.0);
      2.0 * x * x - x
    else if 0.0 < x < 0.5 then
      NegativeProduct(x, 2.0 * x - 1.0);
      2.0 * x * x - x
    else 2.0 * x * x - x
  }

  lemma SixthPower(r: real)
    ensures r == 0.0 ==> Pow(r, 6) == 0.0
    ensures r > 1.0 ==> Pow(r, 6) > 1.0
    ensures 0.0 < r <= 0.5 ==> 0.0 < Pow(r, 6) <= 0.25
  {
    if r == 0.0 {
      assert Pow(r, 6) == r * Pow(r, 5);
    } else if r > 1.0 {
      PowAboveOne(r, 6);
    } else if 0.0 < r <= 0.5 {
      PowSmall(r, 6);
    }
  }

  lemma AboveOne(a: real, b: real)
    requires a > 1.0 && b > 1.0
    ensures a * b > 1.0
  {
    assert a * b - 1.0 == (a - 1.0) * b + (b - 1.0);
    assert (a - 1.0) * b > 0.0;
  }

  lemma AtMostHalf(a: real, b: real)
    requires 0.0 < a <= 0.5 && 0.0 < b <= 0.5
    ensures 0.0 < a * b <= a * 0.5 <= 0.25
  {
    assert a * b <= a * 0.5;
  }

  lemma NegativeProduct(a: real, b: real)
    requires a > 0.0 && b < 0.0
    ensures a * b < 0.0
  {
    assert a * (-b) > 0.0;
  }

  /** The ratio sigma / d for d > 0: above 1 when d < sigma, in (0, 1/2]
      when sigma > 0 and d >= 2 sigma, and 0 when sigma is 0. */
  lemma RatioRange(sigma: real, d: real)
    requires d > 0.0
    ensures sigma == 0.0 ==> sigma / d == 0.0
    ensures d < sigma ==> sigma / d > 1.0
    ensures sigma > 0.0 && d >= 2.0 * sigma ==> 0.0 < sigma / d <= 0.5
  {
    var q := sigma / d;
    assert q * d == sigma;
    assert (q - 1.0) * d == sigma - d;
    assert (0.5 - q) * d == 0.5 * d - sigma;
  }

  /** k x / d keeps the sign of x for k > 0 and d > 0. */
  lemma PositiveScaled(k: real, x: real, d: real)
    ensures k > 0.0 && d > 0.0 && x > 0.0 ==> k * x / d > 0.0
    ensures k > 0.0 && d > 0.0 && x < 0.0 ==> k * x / d < 0.0
  {
    if k > 0.0 && d > 0.0 && x < 0.0 {
      assert k * (-x) / d > 0.0;
    }
  }

  /** Scaling v by k scales its dot product with v by k; that product never
      has the opposite sign of k. */
  lemma ScaledDot(v: Vec3, k: real)
    ensures v.Scale(k).Dot(v) == k * v.Dot(v)
    ensures v.Dot(v) >= 0.0
    ensures k >= 0.0 ==> v.Scale(k).Dot(v) >= 0.0
    ensures k <= 0.0 ==> v.Scale(k).Dot(v) <= 0.0
  {
    assert v.Dot(v) == v.x * v.x + v.y * v.y + v.z * v.z;
    assert v.x * v.x >= 0.0 && v.y * v.y >= 0.0 && v.z * v.z >= 0.0;
    if k >= 0.0 {
      assert k * v.Dot(v) >= 0.0;
    } else {
      assert (-k) * v.Dot(v) >= 0.0;
    }
  }

  lemma AddZero(v: Vec3)
    ensures Zero.Add(v) == v && v.Add(Zero) == v
  {
  }

  lemma AddAssoc(a: Vec3, b: Vec3, c: Vec3)
    ensures a.Add(b).Add(c) == a.Add(b.Add(c))
  {
  }

  /** Rest length of a bond between a and b: the sum of covalent radii, pm to angstrom. */
  function EqDist(a: Atom, b: Atom): real
    requires a.element.Some? && b.element.Some?
  {
    (a.element.value.covalentRadius + b.element.value.covalentRadius) / 100.0
  }

  /** The scan of a bond list for partner j, stopping at the first match. */
  method IsBonded(bonds: seq<Bond>, j: int) returns (bonded: bool)
    ensures bonded <==> HasBondTo(bonds, j)
  {
    bonded := false;
    var p := 0;
    while p < |bonds|
      invariant 0 <= p <= |bonds|
      invariant !HasBondTo(bonds[..p], j)
    {
      if bonds[p].otherAtomIdx == j {
        assert bonds[p] in bonds;
        return true;
      }
      assert bonds[..p + 1] == bonds[..p] + [bonds[p]];
      p := p + 1;
    }
    assert bonds[..p] == bonds;
  }

  /** Sum of the force vectors of a population. */
  function ForceSum(atoms: seq<Atom>): Vec3 {
    if atoms == [] then Zero else ForceSum(atoms[..|atoms| - 1]).Add(atoms[|atoms| - 1].force)
  }

  lemma {:induction false} ForceSumUpdate(atoms: seq<Atom>, k: nat, a: Atom)
    requires k < |atoms|
    ensures ForceSum(atoms[k := a]) == ForceSum(atoms).Sub(atoms[k].force).Add(a.force)
  {
    var s := atoms[k := a];
    if k < |atoms| - 1 {
      assert s[..|s| - 1] == atoms[..|atoms| - 1][k := a];
      ForceSumUpdate(atoms[..|atoms| - 1], k, a);
    } else {
      assert s[..|s| - 1] == atoms[..|atoms| - 1];
    }
  }

  /** A population whose forces are all zero has zero total force. */
  lemma {:induction false} ForceSumOfZeros(atoms: seq<Atom>)
    requires forall k | 0 <= k < |atoms| :: atoms[k].force == Zero
    ensures ForceSum(atoms) == Zero
  {
    if atoms != [] {
      ForceSumOfZeros(atoms[..|atoms| - 1]);
    }
  }

  // ---- bond attempts ---------------------------------------------------------

  /** What a bond attempt returns: whether a bond formed, and both atoms
      afterwards. */
  datatype Attempt = Attempt(formed: bool, a: Atom, b: Atom)

  /** Born-Haber balance of moving one electron from donor to acceptor at
      distance `dist`: ionization energy, minus electron affinity, minus the
      Coulomb stabilization of the ion pair. Negative means exothermic. */
  function DeltaE(coulombK: real, donor: Atom, acceptor: Atom, dist: real): real
    requires donor.element.Some? && acceptor.element.Some? && dist != 0.0
  {
    donor.element.value.ionizationEnergy - acceptor.element.value.electronAffinity - coulombK / dist
  }

  /** The donor of an ionic attempt is a when a is the less electronegative. */
  predicate DonorIsA(a: Atom, b: Atom)
    requires a.element.Some? && b.element.Some?
  {
    a.element.value.electronegativity < b.element.value.electronegativity
  }

  /** The checks tryIonicBond makes before it takes the donor's outermost
      electron: the donor wants to lose one, the acceptor wants one, and the
      transfer is not endothermic. The donor's electron list is not looked at. */
  predicate IonicGuardAsWritten(coulombK: real, a: Atom, b: Atom, dist: real)
    requires a.element.Some? && b.element.Some? && dist != 0.0
  {
    var (d, c) := if DonorIsA(a, b) then (a, b) else (b, a);
    WantsToLoseElectron(d) && WantsElectron(c) && DeltaE(coulombK, d, c, dist) <= 0.0
  }

  /** The guard depends on element data and distance only, so an atom that
      has already given away all of its electrons still passes it. */
  lemma GuardIgnoresElectrons(coulombK: real, a: Atom, b: Atom, dist: real, es: seq<Electron>, q: int)
    requires a.element.Some? && b.element.Some? && dist != 0.0
    ensures IonicGuardAsWritten(coulombK, a, b, dist)
        == IonicGuardAsWritten(coulombK, a.(electrons := es, charge := q), b, dist)
    ensures IonicGuardAsWritten(coulombK, a, b, dist)
        == IonicGuardAsWritten(coulombK, a, b.(electrons := es, charge := q), dist)
  {
    IntentIgnoresState(a, a.(electrons := es, charge := q));
    IntentIgnoresState(b, b.(electrons := es, charge := q));
  }

  /** A lithium-like donor (ionization energy 5.39 eV, one valence electron,
      electronegativity 0.98) that has no electron left, one angstrom from a
      neutral fluorine-like acceptor (electron affinity 3.40 eV, seven
      valence electrons, electronegativity 3.98, its nine electrons in
      place), passes the guard with the default
      Coulomb constant 14.4: tryIonicBond then pops an empty electron list. */
  lemma EmptyDonorPassesGuard()
    ensures var li := ElementData(3, "Li", "Lithium", 6.94, 0.98, 5.39, 0.618, 152.0, 128.0, 182.0, 1, 2, 1, "alkali_metal");
      var f := ElementData(9, "F", "Fluorine", 19.0, 3.98, 17.42, 3.40, 50.0, 57.0, 147.0, 7, 2, 17, "halogen");
      var donor := DefaultAtom.(elementZ := 3, element := Some(li), electrons := [], charge := 3);
      var acceptor := DefaultAtom.(elementZ := 9, element := Some(f), electrons := Configuration(9), charge := 0);
      IonicGuardAsWritten(14.4, donor, acceptor, 1.0) && donor.electrons == []
  {
  }

  /** d's outermost electron moved to the end of c's list, and their charges
      moved by one. */
  predicate ElectronMoved(d: Atom, d': Atom, c: Atom, c': Atom) {
    |d.electrons| > 0
    && d'.electrons + [d.electrons[|d.electrons| - 1]] == d.electrons
    && c'.electrons == c.electrons + [d.electrons[|d.electrons| - 1]]
    && d'.charge == d.charge + 1 && c'.charge == c.charge - 1
  }

  /** On a successful transfer: d's outermost electron moved to c, their
      charges moved by one, and each got one ionic entry of order 1 naming
      the other with the given strength; nothing else changed. */
  predicate IonicTransfer(d: Atom, d': Atom, c: Atom, c': Atom, dIdx: int, cIdx: int, strength: real) {
    ElectronMoved(d, d', c, c')
    && d'.bonds == d.bonds + [Bond(cIdx, Ionic, 1, strength)]
    && c'.bonds == c.bonds + [Bond(dIdx, Ionic, 1, strength)]
    && SameAtom(d, d') && SameAtom(c, c')
  }

  /** Each atom's list grew by one entry, and the entries mirror each other. */
  predicate BondAdded(a: Atom, a': Atom, b: Atom, b': Atom, idxA: int, idxB: int) {
    |a'.bonds| == |a.bonds| + 1 && a'.bonds[..|a.bonds|] == a.bonds
    && a'.bonds[|a.bonds|].otherAtomIdx == idxB
    && b'.bonds == b.bonds + [Mirror(a'.bonds[|a.bonds|], idxA)]
  }

  // ---- bond formation --------------------------------------------------------

  /** Neither atom is a noble gas and both have element data with an
      electronegativity of at least 0.01: the pairs the form sweep hands to
      a bond attempt once they are in range and not yet bonded. */
  predicate Bondable(a: Atom, b: Atom) {
    a.element.Some? && b.element.Some?
    && a.element.value.category != "noble_gas" && b.element.value.category != "noble_gas"
    && a.element.value.electronegativity >= 0.01 && b.element.value.electronegativity >= 0.01
  }

  /** A bondable pair whose electronegativities differ by more than the
      threshold goes to the ionic attempt, any other bondable pair to the
      covalent one. */
  predicate IonicRoute(a: Atom, b: Atom, threshold: real) {
    Bondable(a, b) && AbsR(a.element.value.electronegativity - b.element.value.electronegativity) > threshold
  }

  /** No two atoms that the form sweep would send to the ionic attempt share
      a position: that attempt divides the Coulomb constant by their
      distance. Other pairs may coincide. */
  predicate IonicApart(atoms: seq<Atom>, length: Vec3 -> real, threshold: real) {
    forall i, j | 0 <= i < j < |atoms| && IonicRoute(atoms[i], atoms[j], threshold) ::
      length(atoms[i].pos.Sub(atoms[j].pos)) != 0.0
  }

  /** Every atom keeps its position and its element. */
  ghost predicate SameSites(a: seq<Atom>, b: seq<Atom>) {
    |a| == |b| && forall k | 0 <= k < |a| :: b[k].pos == a[k].pos && b[k].element == a[k].element
  }

  /** A bond-data update keeps the sites. */
  lemma SitesThenSame(a: seq<Atom>, b: seq<Atom>, c: seq<Atom>)
    requires SameSites(a, b) && SameAtoms(b, c)
    ensures SameSites(a, c)
  {
    forall k | 0 <= k < |c|
      ensures c[k].pos == a[k].pos && c[k].element == a[k].element
    {
      assert c[k] == b[k].(electrons := c[k].electrons, charge := c[k].charge,
                           bonds := c[k].bonds, effectiveValence := c[k].effectiveValence);
    }
  }

  /** Two populations with the same positions and elements agree on which
      pairs must be apart. */
  lemma IonicApartSameSites(a: seq<Atom>, b: seq<Atom>, length: Vec3 -> real, threshold: real)
    requires SameSites(a, b)
    requires IonicApart(a, length, threshold)
    ensures IonicApart(b, length, threshold)
    ensures AllHaveElements(a) ==> AllHaveElements(b)
  {
    forall i, j | 0 <= i < j < |b| && IonicRoute(b[i], b[j], threshold)
      ensures length(b[i].pos.Sub(b[j].pos)) != 0.0
    {
      assert a[i].pos == b[i].pos && a[j].pos == b[j].pos;
      assert IonicRoute(a[i], a[j], threshold);
    }
  }

  /** b is a with its element kept and entries of non-negative order
      appended to its bond list. */
  predicate Grows(a: Atom, b: Atom) {
    b.element == a.element && a.bonds <= b.bonds
    && forall p | |a.bonds| <= p < |b.bonds| :: b.bonds[p].order >= 0
  }

  lemma GrowsTrans(a: Atom, b: Atom, c: Atom)
    requires Grows(a, b) && Grows(b, c)
    ensures Grows(a, c)
  {
    forall p | |a.bonds| <= p < |c.bonds|
      ensures c.bonds[p].order >= 0
    {
      if p < |b.bonds| {
        assert c.bonds[p] == b.bonds[p];
      }
    }
  }

  lemma {:induction false} BondOrderSumGrows(s: seq<Bond>, t: seq<Bond>)
    requires s <= t && forall p | |s| <= p < |t| :: t[p].order >= 0
    ensures BondOrderSum(s) <= BondOrderSum(t)
  {
    if |t| > |s| {
      var init := t[..|t| - 1];
      assert s <= init;
      BondOrderSumGrows(s, init);
    } else {
      assert s == t;
    }
  }

  /** Growing keeps every partner and never returns valence. */
  lemma GrowsKeeps(a: Atom, b: Atom, j: int)
    requires Grows(a, b)
    ensures HasBondTo(a.bonds, j) ==> HasBondTo(b.bonds, j)
    ensures AvailableValence(b) <= AvailableValence(a)
  {
    BondOrderSumGrows(a.bonds, b.bonds);
    if HasBondTo(a.bonds, j) {
      var x :| x in a.bonds && x.otherAtomIdx == j;
      var q :| 0 <= q < |a.bonds| && a.bonds[q] == x;
      assert b.bonds[q] == x;
    }
  }

  /** An entry the form phase may create on atom k: its partner is another
      atom within bonding range, neither is a noble gas, both have
      electronegativity data, the entry is ionic exactly when their
      electronegativities differ by more than the ionic threshold, an ionic
      entry has order 1 and non-negative strength, and a covalent entry has
      order 1 to 3 and strength 2 eV per order. */
  predicate Formable(atoms: seq<Atom>, length: Vec3 -> real, range: real, threshold: real, k: int, b: Bond) {
    var o := b.otherAtomIdx;
    0 <= k < |atoms| && 0 <= o < |atoms| && o != k
    && Bondable(atoms[k], atoms[o])
    && length(atoms[Min(k, o)].pos.Sub(atoms[Max(k, o)].pos)) <= range
    && (b.kind == Ionic <==> IonicRoute(atoms[k], atoms[o], threshold))
    && (b.kind == Ionic ==> b.order == 1 && b.strength >= 0.0)
    && (b.kind != Ionic ==> b.kind == Covalent && 1 <= b.order <= 3 && b.strength == 2.0 * b.order as real)
  }

  /** The state of the form sweep: only electrons, charge, cached valence and
      bonds changed; the accounts hold; the graph is well formed; every list
      extends the original one and every entry added is formable. */
  ghost predicate FormInv(atoms: seq<Atom>, out: seq<Atom>, length: Vec3 -> real, range: real, threshold: real) {
    SameAtoms(atoms, out) && Accounted(atoms, out) && WellFormed(out)
    && (forall k | 0 <= k < |out| :: atoms[k].bonds <= out[k].bonds)
    && forall k, p | 0 <= k < |out| && |atoms[k].bonds| <= p < |out[k].bonds| ::
         Formable(atoms, length, range, threshold, k, out[k].bonds[p])
  }

  /** An entry formable on atom k is formable, mirrored, on its partner. */
  lemma FormableMirror(atoms: seq<Atom>, length: Vec3 -> real, range: real, threshold: real, k: int, b: Bond)
    requires Formable(atoms, length, range, threshold, k, b)
    ensures Formable(atoms, length, range, threshold, b.otherAtomIdx, Mirror(b, k))
  {
    var o := b.otherAtomIdx;
    var x := atoms[k].element.value.electronegativity - atoms[o].element.value.electronegativity;
    assert AbsR(-x) == AbsR(x);
  }

  /** Whether an entry is formable depends only on positions and elements. */
  lemma FormableSameAtoms(atoms: seq<Atom>, mid: seq<Atom>, length: Vec3 -> real, range: real, threshold: real)
    requires SameAtoms(atoms, mid)
    ensures forall k, b :: Formable(mid, length, range, threshold, k, b) <==> Formable(atoms, length, range, threshold, k, b)
  {
  }

  /** An update of bond data moves no atom and changes no element. */
  lemma KeepFilters(atoms: seq<Atom>, mid: seq<Atom>, length: Vec3 -> real, threshold: real)
    requires SameAtoms(atoms, mid) && IonicApart(atoms, length, threshold)
    ensures IonicApart(mid, length, threshold) && (AllHaveElements(atoms) ==> AllHaveElements(mid))
  {
    SitesThenSame(atoms, atoms, mid);
    IonicApartSameSites(atoms, mid, length, threshold);
  }

  /** Two bond-data updates in a row are one. */
  lemma SameAtomsTrans(a: seq<Atom>, b: seq<Atom>, c: seq<Atom>)
    requires SameAtoms(a, b) && SameAtoms(b, c)
    ensures SameAtoms(a, c)
  {
    forall k | 0 <= k < |c|
      ensures c[k] == a[k].(electrons := c[k].electrons, charge := c[k].charge,
                            bonds := c[k].bonds, effectiveValence := c[k].effectiveValence)
    {
      assert b[k] == a[k].(electrons := b[k].electrons, charge := b[k].charge,
                           bonds := b[k].bonds, effectiveValence := b[k].effectiveValence);
    }
  }

  /** The form phase run on what the break phase left. */
  lemma ComposePhases(atoms: seq<Atom>, mid: seq<Atom>, out: seq<Atom>, rule: BreakRule,
                      length: Vec3 -> real, range: real, threshold: real)
    requires SameAtoms(atoms, mid)
    requires forall k | 0 <= k < |mid| :: mid[k].bonds == Survivors(atoms, rule, k, atoms[k].bonds)
    requires FormInv(mid, out, length, range, threshold)
    ensures SameAtoms(atoms, out)
    ensures forall k | 0 <= k < |out| :: Survivors(atoms, rule, k, atoms[k].bonds) <= out[k].bonds
    ensures forall k, p | 0 <= k < |out| && |Survivors(atoms, rule, k, atoms[k].bonds)| <= p < |out[k].bonds| ::
      Formable(atoms, length, range, threshold, k, out[k].bonds[p])
  {
    FormableSameAtoms(atoms, mid, length, range, threshold);
    forall k, p | 0 <= k < |out| && |Survivors(atoms, rule, k, atoms[k].bonds)| <= p < |out[k].bonds|
      ensures Formable(atoms, length, range, threshold, k, out[k].bonds[p])
    {
      assert Formable(mid, length, range, threshold, k, out[k].bonds[p]);
    }
  }

  /** The form sweep starts from a well-formed population. */
  lemma FormStart(atoms: seq<Atom>, length: Vec3 -> real, range: real, threshold: real)
    requires WellFormed(atoms)
    ensures FormInv(atoms, atoms, length, range, threshold)
  {
  }

  /** Adding one formable entry and its mirror keeps the form invariant. */
  lemma FormStep(atoms: seq<Atom>, cur: seq<Atom>, out: seq<Atom>, length: Vec3 -> real, range: real, threshold: real,
                 i: int, j: int, b: Bond)
    requires FormInv(atoms, cur, length, range, threshold)
    requires SameAtoms(atoms, out) && Accounted(atoms, out) && WellFormed(out)
    requires 0 <= i < |cur| && 0 <= j < |cur| && i != j && b.otherAtomIdx == j
    requires forall k | 0 <= k < |cur| && k != i && k != j :: out[k].bonds == cur[k].bonds
    requires out[i].bonds == cur[i].bonds + [b] && out[j].bonds == cur[j].bonds + [Mirror(b, i)]
    requires Formable(atoms, length, range, threshold, i, b)
    ensures FormInv(atoms, out, length, range, threshold)
  {
    FormableMirror(atoms, length, range, threshold, i, b);
    forall k, p | 0 <= k < |out| && |atoms[k].bonds| <= p < |out[k].bonds|
      ensures Formable(atoms, length, range, threshold, k, out[k].bonds[p])
    {
      if p < |cur[k].bonds| {
        assert out[k].bonds[p] == cur[k].bonds[p];
      }
    }
  }

  // ---- the pair loop's running sums -------------------------------------------

  /** Sum of F(p, q) over p < q < hi: what the pairs with later atoms push on p. */
  function RowSum(F: (nat, nat) -> Vec3, p: nat, hi: nat): Vec3
    requires p < hi
    decreases hi
  {
    if hi == p + 1 then Zero else RowSum(F, p, hi - 1).Add(F(p, hi - 1))
  }

  /** Sum of F(p, k) over p < hi: what k's pairs with earlier atoms push on them. */
  function ColSum(F: (nat, nat) -> Vec3, k: nat, hi: nat): Vec3 {
    if hi == 0 then Zero else ColSum(F, k, hi - 1).Add(F(hi - 1, k))
  }

  /** Force on atom k of n once the pairs before (i, j), in row-major order,
      have been added to their first atom and subtracted from their second. */
  ghost function Acc(F: (nat, nat) -> Vec3, n: nat, k: nat, i: nat, j: nat): Vec3
    requires k < n && i <= n && i < j && (i < n ==> j <= n)
  {
    var row := if k < i then RowSum(F, k, n) else if k == i then RowSum(F, i, j) else Zero;
    var cur := if i < k < j then F(i, k) else Zero;
    row.Sub(ColSum(F, k, Min(k, i))).Sub(cur)
  }

  /** Before the first pair nothing has been added. */
  lemma AccStart(F: (nat, nat) -> Vec3, n: nat, k: nat)
    requires k < n
    ensures Acc(F, n, k, 0, 1) == Zero
  {
  }

  /** After the last row every atom holds its net force. */
  lemma AccEnd(F: (nat, nat) -> Vec3, n: nat, k: nat)
    requires k < n
    ensures Acc(F, n, k, n, n + 1) == RowSum(F, k, n).Sub(ColSum(F, k, k))
  {
  }

  /** The end of row i is the start of row i + 1. */
  lemma AccRowEnd(F: (nat, nat) -> Vec3, n: nat, k: nat, i: nat)
    requires k < n && i < n
    ensures Acc(F, n, k, i, n) == Acc(F, n, k, i + 1, i + 2)
  {
  }

  /** Adding pair (i, j) changes the accumulated force of i and j only. */
  lemma AccStep(F: (nat, nat) -> Vec3, n: nat, k: nat, i: nat, j: nat)
    requires i < j < n && k < n
    ensures k == i ==> Acc(F, n, k, i, j + 1) == Acc(F, n, k, i, j).Add(F(i, j))
    ensures k == j ==> Acc(F, n, k, i, j + 1) == Acc(F, n, k, i, j).Sub(F(i, j))
    ensures k != i && k != j ==> Acc(F, n, k, i, j + 1) == Acc(F, n, k, i, j)
  {
    if k == i {
      assert RowSum(F, i, j + 1) == RowSum(F, i, j).Add(F(i, j));
    }
  }

  /** `out` is the population with each force replaced by what the pair
      loop has accumulated, from the table F, before pair (i, j). */
  ghost predicate Accumulated(F: (nat, nat) -> Vec3, atoms: seq<Atom>, out: seq<Atom>, i: nat, j: nat)
    requires i <= |atoms| && i < j && (i < |atoms| ==> j <= |atoms|)
  {
    |out| == |atoms| &&
    forall k {:trigger out[k]} | 0 <= k < |atoms| :: out[k] == atoms[k].(force := Acc(F, |atoms|, k, i, j))
  }

  /** The end of row i is the start of row i + 1. */
  lemma RowEnd(F: (nat, nat) -> Vec3, atoms: seq<Atom>, out: seq<Atom>, i: nat)
    requires i < |atoms|
    requires Accumulated(F, atoms, out, i, |atoms|)
    ensures Accumulated(F, atoms, out, i + 1, i + 2)
  {
    forall k | 0 <= k < |atoms|
      ensures Acc(F, |atoms|, k, i, |atoms|) == Acc(F, |atoms|, k, i + 1, i + 2)
    {
      AccRowEnd(F, |atoms|, k, i);
    }
  }

  /** One inner step adds the pair's force to i, subtracts it from j, and
      leaves every other atom's accumulated force as it was. */
  lemma PushPair(F: (nat, nat) -> Vec3, atoms: seq<Atom>, out: seq<Atom>, o: seq<Atom>, o2: seq<Atom>, i: nat, j: nat, next: nat, f: Vec3)
    requires i < j < |atoms| && next == j + 1 && F(i, j) == f
    requires Accumulated(F, atoms, out, i, j)
    requires o == out[i := out[i].(force := out[i].force.Add(f))]
    requires o2 == o[j := out[j].(force := out[j].force.Sub(f))]
    ensures Accumulated(F, atoms, o2, i, next)
  {
    forall k | 0 <= k < |atoms|
      ensures o2[k] == atoms[k].(force := Acc(F, |atoms|, k, i, next))
    {
      AccStep(F, |atoms|, k, i, j);
      if k == i {
        assert o2[k] == out[k].(force := out[k].force.Add(f));
      } else if k == j {
        assert o2[k] == out[k].(force := out[k].force.Sub(f));
      } else {
        assert o2[k] == out[k];
      }
    }
  }

  /** A pair that contributes nothing leaves the accumulated forces as they are. */
  lemma SkipPair(F: (nat, nat) -> Vec3, atoms: seq<Atom>, out: seq<Atom>, i: nat, j: nat, next: nat)
    requires i < j < |atoms| && next == j + 1 && F(i, j) == Zero
    requires Accumulated(F, atoms, out, i, j)
    ensures Accumulated(F, atoms, out, i, next)
  {
    forall k | 0 <= k < |atoms|
      ensures out[k] == atoms[k].(force := Acc(F, |atoms|, k, i, next))
    {
      AccStep(F, |atoms|, k, i, j);
    }
  }

  class InteractionEngine {
    /** Coulomb constant, eV angstrom per squared elementary charge. */
    const coulombK: real
    /** Lennard-Jones well depth, eV. */
    const ljEpsilon: real
    /** Largest distance, in angstrom, at which a bond is attempted. */
    const bondingRange: real
    /** Electronegativity difference above which a bond is ionic. */
    const ionicThreshold: real
    /** Kelvin. */
    var temperature: real
    /** Simulation time, set by the simulation before each force pass. */
    var simTime: real
    /** Event counters and log; nothing in the engine updates them. */
    var bondFormedCount: int
    var bondBrokenCount: int
    var reactionLog: seq<string>

    constructor ()
      ensures coulombK == 14.4 && ljEpsilon == 0.01 && bondingRange == 5.0
      ensures ionicThreshold == 1.7 && temperature == 300.0
      ensures simTime == 0.0 && bondFormedCount == 0 && bondBrokenCount == 0 && reactionLog == []
    {
      coulombK := 14.4;
      ljEpsilon := 0.01;
      bondingRange := 5.0;
      ionicThreshold := 1.7;
      temperature := 300.0;
      simTime := 0.0;
      bondFormedCount := 0;
      bondBrokenCount := 0;
      reactionLog := [];
    }

    /** Signed Coulomb magnitude for charges qa and qb at distance `dist`
        (floored at 0.5): positive (repulsive) for like charges, negative for
        opposite ones, zero between two neutral atoms. */
    function CoulombMagnitude(qa: int, qb: int, dist: real): (m: real)
      ensures qa == 0 && qb == 0 ==> m == 0.0
      ensures coulombK > 0.0 && qa * qb > 0 ==> m > 0.0
      ensures coulombK > 0.0 && qa * qb < 0 ==> m < 0.0
    {
      if qa == 0 && qb == 0 then 0.0
      else
        var d := MaxR(dist, 0.5);
        assert (qa as real) * (qb as real) == (qa * qb) as real;
        assert coulombK * (qa as real) * (qb as real) == coulombK * ((qa * qb) as real);
        coulombK * (qa as real) * (qb as real) / (d * d)
    }

    /** coulombForce: zero between two neutral atoms. */
    function CoulombForce(a: Atom, b: Atom, dist: real, dir: Vec3): (f: Vec3)
      ensures a.charge == 0 && b.charge == 0 ==> f == Zero
    {
      if a.charge == 0 && b.charge == 0 then Zero
      else dir.Scale(CoulombMagnitude(a.charge, b.charge, dist))
    }

    /** Lennard-Jones magnitude 24 eps (2 (s/d)^12 - (s/d)^6) / d, with the
        distance d floored at 0.5 and s the mean van der Waals radius in
        angstrom: zero when both radii are zero; with a positive well depth,
        repulsive closer than s and attractive from 2 s on. */
    function LJMagnitude(vdwA: real, vdwB: real, dist: real): (m: real)
      ensures vdwA + vdwB == 0.0 ==> m == 0.0
      ensures ljEpsilon > 0.0 && 0.0 < MaxR(dist, 0.5) < (vdwA + vdwB) / 200.0 ==> m > 0.0
      ensures ljEpsilon > 0.0 && vdwA + vdwB > 0.0 && MaxR(dist, 0.5) >= (vdwA + vdwB) / 100.0 ==> m < 0.0
    {
      var sigma := (vdwA + vdwB) / 200.0;
      var d := MaxR(dist, 0.5);
      RatioRange(sigma, d);
      PositiveScaled(24.0 * ljEpsilon, LJBracket(sigma / d), d);
      24.0 * ljEpsilon * LJBracket(sigma / d) / d
    }

    /** ljForce: the Lennard-Jones magnitude along `dir`; zero for two atoms
        without van der Waals radii, pushing along `dir` closer than the
        mean radius and pulling against it from twice that radius on. */
    function LJForce(a: Atom, b: Atom, dist: real, dir: Vec3): (f: Vec3)
      requires a.element.Some? && b.element.Some?
      ensures a.element.value.vdwRadius + b.element.value.vdwRadius == 0.0 ==> f == Zero
      ensures ljEpsilon > 0.0 && MaxR(dist, 0.5) < (a.element.value.vdwRadius + b.element.value.vdwRadius) / 200.0
              ==> f.Dot(dir) >= 0.0
      ensures ljEpsilon > 0.0 && a.element.value.vdwRadius + b.element.value.vdwRadius > 0.0
              && MaxR(dist, 0.5) >= (a.element.value.vdwRadius + b.element.value.vdwRadius) / 100.0
              ==> f.Dot(dir) <= 0.0
    {
      var m := LJMagnitude(a.element.value.vdwRadius, b.element.value.vdwRadius, dist);
      ScaledDot(dir, m);
      dir.Scale(m)
    }

    /** The force the pair (i, j), i < j, puts on atom i (and, negated, on
        atom j): nothing for atoms closer than 0.01, otherwise the spring when
        atom i lists j as a partner, plus Coulomb, plus Lennard-Jones. */
    function PairForce(atoms: seq<Atom>, i: nat, j: nat, length: Vec3 -> real): Vec3
      requires i < j < |atoms| && AllHaveElements(atoms)
    {
      var diff := atoms[i].pos.Sub(atoms[j].pos);
      var dist := length(diff);
      if dist < 0.01 then Zero
      else
        var dir := diff.Scale(1.0 / dist);
        var spring := if HasBondTo(atoms[i].bonds, j)
          then Zero.Add(BondSpringForce(EqDist(atoms[i], atoms[j]), dist, dir)) else Zero;
        spring.Add(CoulombForce(atoms[i], atoms[j], dist, dir)).Add(LJForce(atoms[i], atoms[j], dist, dir))
    }

    /** Atoms closer than 0.01 push nothing on each other. */
    lemma PairForceClose(atoms: seq<Atom>, i: nat, j: nat, length: Vec3 -> real)
      requires i < j < |atoms| && AllHaveElements(atoms)
      ensures length(atoms[i].pos.Sub(atoms[j].pos)) < 0.01 ==> PairForce(atoms, i, j, length) == Zero
    {
    }

    /** The parts of the force between atoms at least 0.01 apart: the Coulomb
        and Lennard-Jones forces, plus exactly the spring when atom i lists j
        and no spring term when it does not; two neutral atoms without a bond
        feel the Lennard-Jones force alone. */
    lemma PairForceParts(atoms: seq<Atom>, i: nat, j: nat, length: Vec3 -> real, dist: real, dir: Vec3)
      requires i < j < |atoms| && AllHaveElements(atoms)
      requires dist == length(atoms[i].pos.Sub(atoms[j].pos)) && dist >= 0.01
      requires dir == atoms[i].pos.Sub(atoms[j].pos).Scale(1.0 / dist)
      ensures !HasBondTo(atoms[i].bonds, j) ==>
        PairForce(atoms, i, j, length) == CoulombForce(atoms[i], atoms[j], dist, dir).Add(LJForce(atoms[i], atoms[j], dist, dir))
      ensures HasBondTo(atoms[i].bonds, j) ==>
        PairForce(atoms, i, j, length)
        == BondSpringForce(EqDist(atoms[i], atoms[j]), dist, dir)
             .Add(CoulombForce(atoms[i], atoms[j], dist, dir).Add(LJForce(atoms[i], atoms[j], dist, dir)))
      ensures !HasBondTo(atoms[i].bonds, j) && atoms[i].charge == 0 && atoms[j].charge == 0 ==>
        PairForce(atoms, i, j, length) == LJForce(atoms[i], atoms[j], dist, dir)
    {
      var c := CoulombForce(atoms[i], atoms[j], dist, dir);
      var l := LJForce(atoms[i], atoms[j], dist, dir);
      var sp := BondSpringForce(EqDist(atoms[i], atoms[j]), dist, dir);
      var spring := if HasBondTo(atoms[i].bonds, j) then Zero.Add(sp) else Zero;
      assert PairForce(atoms, i, j, length) == spring.Add(c).Add(l);
      AddZero(sp);
      AddAssoc(sp, c, l);
      AddZero(c.Add(l));
      AddAssoc(Zero, c, l);
      AddZero(c);
      AddZero(l);
    }

    /** The pair forces of a population as a table: entry (p, q), p < q,
        is what pair (p, q) pushes on p. */
    function PairTable(atoms: seq<Atom>, length: Vec3 -> real): (nat, nat) -> Vec3
      requires AllHaveElements(atoms)
    {
      (p: nat, q: nat) => if p < q < |atoms| then PairForce(atoms, p, q, length) else Zero
    }

    /** F holds the pair forces of the population. */
    ghost predicate Tabulates(F: (nat, nat) -> Vec3, atoms: seq<Atom>, length: Vec3 -> real)
      requires AllHaveElements(atoms)
    {
      forall p: nat, q: nat {:trigger F(p, q)} | p < q < |atoms| :: F(p, q) == PairForce(atoms, p, q, length)
    }

    /** The net force on atom k: what its pairs with later atoms push on it,
        minus what its pairs with earlier atoms push on them. */
    function NetForce(atoms: seq<Atom>, k: nat, length: Vec3 -> real): Vec3
      requires k < |atoms| && AllHaveElements(atoms)
    {
      RowSum(PairTable(atoms, length), k, |atoms|).Sub(ColSum(PairTable(atoms, length), k, k))
    }

    /** computeForces: resets every force, then adds each pair's force to its
        first atom and subtracts it from its second, so every atom ends with
        its net force and the forces of the population cancel. */
    method ComputeForces(atoms: seq<Atom>, length: Vec3 -> real) returns (out: seq<Atom>)
      requires AllHaveElements(atoms)
      ensures |out| == |atoms|
      ensures forall k {:trigger out[k]} | 0 <= k < |atoms| :: out[k] == atoms[k].(force := NetForce(atoms, k, length))
      ensures ForceSum(out) == Zero
    {
      var n := |atoms|;
      out := ResetForces(atoms);
      ForceSumOfZeros(out);
      ghost var F := PairTable(atoms, length);
      assert Tabulates(F, atoms, length);
      forall k | 0 <= k < n
        ensures Acc(F, n, k, 0, 1) == Zero
      {
        AccStart(F, n, k);
      }
      var i := 0;
      while i < n
        invariant 0 <= i <= n && |out| == n
        invariant Accumulated(F, atoms, out, i, i + 1)
        invariant ForceSum(out) == Zero
      {
        var next := i + 1;
        out := AccumulateRow(atoms, out, i, next, length, F);
        i := next;
      }
      forall k | 0 <= k < n
        ensures Acc(F, n, k, n, n + 1) == NetForce(atoms, k, length)
      {
        AccEnd(F, n, k);
      }
    }

    /** The reset loop: every force becomes zero. */
    method ResetForces(atoms: seq<Atom>) returns (out: seq<Atom>)
      ensures |out| == |atoms|
      ensures forall k | 0 <= k < |atoms| :: out[k] == atoms[k].(force := Zero)
    {
      out := atoms;
      var r := 0;
      while r < |atoms|
        invariant 0 <= r <= |atoms| && |out| == |atoms|
        invariant forall k | 0 <= k < r :: out[k] == atoms[k].(force := Zero)
        invariant forall k | r <= k < |atoms| :: out[k] == atoms[k]
      {
        out := out[r := out[r].(force := Zero)];
        r := r + 1;
      }
    }

    /** Row i of the pair loop: the pairs (i, j) for every later j. */
    method AccumulateRow(atoms: seq<Atom>, cur: seq<Atom>, i: nat, next: nat, length: Vec3 -> real, ghost F: (nat, nat) -> Vec3)
      returns (out: seq<Atom>)
      requires i < |atoms| == |cur| && next == i + 1 && AllHaveElements(atoms) && Tabulates(F, atoms, length)
      requires Accumulated(F, atoms, cur, i, i + 1)
      requires ForceSum(cur) == Zero
      ensures |out| == |atoms|
      ensures Accumulated(F, atoms, out, next, next + 1)
      ensures ForceSum(out) == Zero
    {
      var n := |atoms|;
      out := cur;
      var j := i + 1;
      while j < n
        invariant i + 1 <= j <= n && |out| == n
        invariant Accumulated(F, atoms, out, i, j)
        invariant ForceSum(out) == Zero
      {
        var next := j + 1;
        out := PairStep(atoms, out, i, j, next, length, F);
        j := next;
      }
      RowEnd(F, atoms, out, i);
    }

    /** One pass of the inner loop, for pair (i, j) with `next` = j + 1: pairs
        closer than 0.01 are skipped. */
    method PairStep(atoms: seq<Atom>, cur: seq<Atom>, i: nat, j: nat, next: nat, length: Vec3 -> real, ghost F: (nat, nat) -> Vec3)
      returns (out: seq<Atom>)
      requires i < j < |atoms| == |cur| && next == j + 1 && AllHaveElements(atoms) && Tabulates(F, atoms, length)
      requires Accumulated(F, atoms, cur, i, j)
      requires ForceSum(cur) == Zero
      ensures |out| == |atoms|
      ensures Accumulated(F, atoms, out, i, next)
      ensures ForceSum(out) == Zero
    {
      var diff := atoms[i].pos.Sub(atoms[j].pos);
      var dist := length(diff);
      if dist >= 0.01 {
        var f := PairForceOf(atoms, i, j, length);
        out := ApplyPair(atoms, cur, i, j, next, f, F);
      } else {
        SkipPair(F, atoms, cur, i, j, next);
        out := cur;
      }
    }

    /** atoms[i].force += f; atoms[j].force -= f. */
    method ApplyPair(atoms: seq<Atom>, cur: seq<Atom>, i: nat, j: nat, next: nat, f: Vec3, ghost F: (nat, nat) -> Vec3)
      returns (out: seq<Atom>)
      requires i < j < |atoms| == |cur| && next == j + 1 && F(i, j) == f
      requires Accumulated(F, atoms, cur, i, j)
      requires ForceSum(cur) == Zero
      ensures |out| == |atoms|
      ensures Accumulated(F, atoms, out, i, next)
      ensures ForceSum(out) == Zero
    {
      var ai := cur[i].(force := cur[i].force.Add(f));
      var aj := cur[j].(force := cur[j].force.Sub(f));
      var o := cur[i := ai];
      out := o[j := aj];
      PushPair(F, atoms, cur, o, out, i, j, next, f);
      ForceSumPair(cur, o, out, i, j, f);
    }

    lemma ForceSumPair(cur: seq<Atom>, o: seq<Atom>, o2: seq<Atom>, i: nat, j: nat, f: Vec3)
      requires i < j < |cur|
      requires o == cur[i := cur[i].(force := cur[i].force.Add(f))]
      requires o2 == o[j := cur[j].(force := cur[j].force.Sub(f))]
      ensures ForceSum(o2) == ForceSum(cur)
    {
      ForceSumUpdate(cur, i, o[i]);
      ForceSumUpdate(o, j, o2[j]);
    }

    /** The body of the pair loop: direction, bond scan, then the three
        contributions summed into one vector. */
    method PairForceOf(atoms: seq<Atom>, i: nat, j: nat, length: Vec3 -> real) returns (f: Vec3)
      requires i < j < |atoms| && AllHaveElements(atoms)
      requires length(atoms[i].pos.Sub(atoms[j].pos)) >= 0.01
      ensures f == PairForce(atoms, i, j, length)
      ensures var dist := length(atoms[i].pos.Sub(atoms[j].pos));
        var dir := atoms[i].pos.Sub(atoms[j].pos).Scale(1.0 / dist);
        && (!HasBondTo(atoms[i].bonds, j) ==>
              f == CoulombForce(atoms[i], atoms[j], dist, dir).Add(LJForce(atoms[i], atoms[j], dist, dir)))
        && (!HasBondTo(atoms[i].bonds, j) && atoms[i].charge == 0 && atoms[j].charge == 0 ==>
              f == LJForce(atoms[i], atoms[j], dist, dir))
    {
      var diff := atoms[i].pos.Sub(atoms[j].pos);
      var dist := length(diff);
      var dir := diff.Scale(1.0 / dist);
      PairForceParts(atoms, i, j, length, dist, dir);
      var bonded := IsBonded(atoms[i].bonds, j);
      f := Zero;
      if bonded {
        f := f.Add(BondSpringForce(EqDist(atoms[i], atoms[j]), dist, dir));
      }
      f := f.Add(CoulombForce(atoms[i], atoms[j], dist, dir));
      f := f.Add(LJForce(atoms[i], atoms[j], dist, dir));
    }

    // ---- bond breaking -------------------------------------------------------

    /** shouldBreakBond: the thermal energy kB T exceeds half the bond's
        strength, that is the bond is weaker than 2 kB T. */
    predicate ShouldBreakBond(b: Bond)
      reads this
      ensures ShouldBreakBond(b) <==> b.strength < 2.0 * (KB * temperature)
    {
      KB * temperature > b.strength * 0.5
    }

    /** The break rule of this engine: stretched beyond 1.5 bonding ranges,
        or thermally broken. */
    function Rule(length: Vec3 -> real): (r: BreakRule)
      reads this
      ensures r.length == length && r.maxDist == bondingRange * 1.5
      ensures forall b: Bond :: ShouldBreakBond(b) <==> r.thermal > b.strength * 0.5
    {
      BreakRule(length, bondingRange * 1.5, KB * temperature)
    }

    /** The break phase of updateBonds: every entry whose atoms are farther
        apart than 1.5 bonding ranges, or which is thermally broken, leaves
        both atoms' lists; when it is ionic and the atom being swept is
        positive, the partner's outermost electron moves back to it. */
    method BreakPhase(atoms: seq<Atom>, length: Vec3 -> real) returns (out: seq<Atom>)
      requires WellFormed(atoms) && Symmetric(length)
      ensures SameAtoms(atoms, out)
      ensures forall k | 0 <= k < |out| :: out[k].bonds == Survivors(atoms, Rule(length), k, atoms[k].bonds)
      ensures WellFormed(out)
      ensures TotalCharge(out) == TotalCharge(atoms) && TotalElectrons(out) == TotalElectrons(atoms)
      ensures AllBalanced(atoms) ==> AllBalanced(out)
      ensures IonsKept(atoms, Rule(length), out)
    {
      var rule := Rule(length);
      out := atoms;
      SweepStart(atoms, rule);
      var i := 0;
      while i < |atoms|
        invariant 0 <= i <= |atoms|
        invariant SameAtoms(atoms, out) && Accounted(atoms, out)
        invariant BrokenUpTo(atoms, rule, out, i, {})
        invariant IonsKept(atoms, rule, out)
      {
        out := BreakRow(atoms, out, i, length);
        i := i + 1;
      }
      SweepEnd(atoms, rule, out);
      SurvivorsWellFormed(atoms, rule, out);
    }

    /** Row i of the break sweep: walks atom i's list once. */
    method BreakRow(atoms: seq<Atom>, cur: seq<Atom>, i: int, length: Vec3 -> real) returns (out: seq<Atom>)
      requires WellFormed(atoms) && Symmetric(length) && 0 <= i < |atoms|
      requires SameAtoms(atoms, cur) && Accounted(atoms, cur) && BrokenUpTo(atoms, Rule(length), cur, i, {})
      requires IonsKept(atoms, Rule(length), cur)
      ensures SameAtoms(atoms, out) && Accounted(atoms, out) && BrokenUpTo(atoms, Rule(length), out, i + 1, {})
      ensures IonsKept(atoms, Rule(length), out)
    {
      out := cur;
      var p := 0;
      ghost var done: set<int> := {};
      while p < |out[i].bonds|
        invariant SameAtoms(atoms, out) && Accounted(atoms, out) && IonsKept(atoms, Rule(length), out)
        invariant BrokenUpTo(atoms, Rule(length), out, i, done)
        invariant Cursor(out[i].bonds, done, p)
        decreases |out[i].bonds| - p
      {
        out, p, done := BreakEntry(atoms, out, i, p, done, length);
      }
      RowClosed(atoms, Rule(length), out, i, done);
    }

    /** One entry of row i: erased from both atoms when it breaks, passed
        over otherwise. */
    method BreakEntry(atoms: seq<Atom>, cur: seq<Atom>, i: int, p: int, ghost done: set<int>, length: Vec3 -> real)
      returns (out: seq<Atom>, p': int, ghost done': set<int>)
      requires WellFormed(atoms) && Symmetric(length) && 0 <= i < |atoms|
      requires SameAtoms(atoms, cur) && Accounted(atoms, cur) && BrokenUpTo(atoms, Rule(length), cur, i, done)
      requires Cursor(cur[i].bonds, done, p) && p < |cur[i].bonds|
      requires IonsKept(atoms, Rule(length), cur)
      ensures SameAtoms(atoms, out) && Accounted(atoms, out) && BrokenUpTo(atoms, Rule(length), out, i, done')
      ensures IonsKept(atoms, Rule(length), out)
      ensures Cursor(out[i].bonds, done', p')
      ensures |out[i].bonds| - p' < |cur[i].bonds| - p
    {
      var e := cur[i].bonds[p];
      var j := e.otherAtomIdx;
      CursorEntry(atoms, Rule(length), cur, i, done, p);
      var dist := length(cur[i].pos.Sub(cur[j].pos));
      var maxDist := bondingRange * 1.5;
      if dist > maxDist || ShouldBreakBond(e) {
        out := BreakPair(atoms, cur, i, p, done, length);
        CursorErase(cur[i].bonds, done, p);
        p', done' := p, done + {j};
      } else {
        KeepStepLists(atoms, Rule(length), cur, i, done, p);
        CursorAdvance(cur[i].bonds, done, p);
        out, p', done' := cur, p + 1, done + {j};
      }
    }

    /** Erases a breaking entry from both of its atoms, returning an ionic
        bond's electron to the swept atom when that atom is positive and the
        partner has an electron to give. */
    method BreakPair(atoms: seq<Atom>, cur: seq<Atom>, i: int, p: int, ghost done: set<int>, length: Vec3 -> real)
      returns (out: seq<Atom>)
      requires WellFormed(atoms) && Symmetric(length) && 0 <= i < |atoms|
      requires SameAtoms(atoms, cur) && Accounted(atoms, cur) && BrokenUpTo(atoms, Rule(length), cur, i, done)
      requires Cursor(cur[i].bonds, done, p) && p < |cur[i].bonds|
      requires Breaks(atoms, Rule(length), i, cur[i].bonds[p])
      requires IonsKept(atoms, Rule(length), cur)
      ensures SameAtoms(atoms, out) && Accounted(atoms, out)
      ensures BrokenUpTo(atoms, Rule(length), out, i, done + {cur[i].bonds[p].otherAtomIdx})
      ensures IonsKept(atoms, Rule(length), out)
      ensures var j := cur[i].bonds[p].otherAtomIdx;
        0 <= j < |cur| && j != i
        && (forall k | 0 <= k < |cur| && k != i && k != j :: out[k] == cur[k])
        && out[i].bonds == RemoveAt(cur[i].bonds, p) && out[j].bonds == RemoveRefs(cur[j].bonds, i)
      ensures var e := cur[i].bonds[p]; var j := e.otherAtomIdx;
        if e.kind == Ionic && cur[i].charge > 0 && |cur[j].electrons| > 0
        then ElectronMoved(cur[j], out[j], cur[i], out[i])
        else out[i].electrons == cur[i].electrons && out[i].charge == cur[i].charge
             && out[j].electrons == cur[j].electrons && out[j].charge == cur[j].charge
    {
      var e := cur[i].bonds[p];
      var j := e.otherAtomIdx;
      CursorEntry(atoms, Rule(length), cur, i, done, p);
      if e.kind == Ionic {
        IonicBreakBoth(atoms, Rule(length), i, e);
      }
      var bj := RemoveRefs(cur[j].bonds, i);
      var bi := RemoveAt(cur[i].bonds, p);
      RemoveRefsNoDup(cur[j].bonds, i);
      RemoveAtNoDup(cur[i].bonds, p);
      out := cur[j := cur[j].(bonds := bj)];
      if e.kind == Ionic && out[i].charge > 0 && |out[j].electrons| > 0 {
        var (x, el) := RemoveOuterElectron(out[j]);
        out := out[j := x];
        out := out[i := AddElectron(out[i], el)];
      }
      out := out[i := out[i].(bonds := bi)];
      TwoAtomUpdate(atoms, cur, out, i, j);
      BreakStepLists(atoms, Rule(length), cur, i, done, p, out);
      IonsKeptTwo(atoms, Rule(length), cur, out, i, j);
    }

    // ---- bond formation --------------------------------------------------------

    /** tryCovalentBond: fails, changing nothing, unless both atoms have
        available valence; otherwise both atoms get one covalent entry naming
        the other, of order min(availA, availB, 3) and strength 2 eV per
        order. The cached valence is not refreshed. */
    function TryCovalentBond(a: Atom, b: Atom, idxA: int, idxB: int): (r: Attempt)
      ensures r.formed <==> AvailableValence(a) > 0 && AvailableValence(b) > 0
      ensures !r.formed ==> r.a == a && r.b == b
      ensures r.formed ==> BondAdded(a, r.a, b, r.b, idxA, idxB)
      ensures r.formed ==> r.a == a.(bonds := r.a.bonds) && r.b == b.(bonds := r.b.bonds)
      ensures r.formed ==>
        var e := r.a.bonds[|a.bonds|];
        e.kind == Covalent && 1 <= e.order <= 3
        && e.order <= AvailableValence(a) && e.order <= AvailableValence(b)
        && (e.order == 3 || e.order == AvailableValence(a) || e.order == AvailableValence(b))
        && e.strength == 2.0 * e.order as real
    {
      var availA := AvailableValence(a);
      var availB := AvailableValence(b);
      if availA <= 0 || availB <= 0 then Attempt(false, a, b)
      else
        var order := Min(Min(availA, availB), 3);
        var energy := 2.0 * order as real;
        Attempt(true, a.(bonds := a.bonds + [Bond(idxB, Covalent, order, energy)]),
                      b.(bonds := b.bonds + [Bond(idxA, Covalent, order, energy)]))
    }

    /** A covalent bond uses up its order of each atom's available valence. */
    lemma CovalentUsesValence(a: Atom, b: Atom, idxA: int, idxB: int)
      requires TryCovalentBond(a, b, idxA, idxB).formed
      ensures var r := TryCovalentBond(a, b, idxA, idxB);
        AvailableValence(r.a) == AvailableValence(a) - r.a.bonds[|a.bonds|].order
        && AvailableValence(r.b) == AvailableValence(b) - r.a.bonds[|a.bonds|].order
    {
      var r := TryCovalentBond(a, b, idxA, idxB);
      BondOrderSumAppend(a.bonds, r.a.bonds[|a.bonds|]);
      BondOrderSumAppend(b.bonds, r.b.bonds[|b.bonds|]);
      assert r.a.bonds == a.bonds + [r.a.bonds[|a.bonds|]];
    }

    /** tryIonicBond, with the donor's electron list checked: the less
        electronegative atom donates. The attempt fails, changing nothing,
        unless the donor wants to lose an electron, the acceptor wants one,
        the transfer is not endothermic at the atoms' distance, and the
        donor has an electron. Otherwise the donor's outermost electron
        moves to the acceptor and both get an ionic entry of strength
        -deltaE naming the other. */
    function TryIonicBond(a: Atom, b: Atom, idxA: int, idxB: int, length: Vec3 -> real): (r: Attempt)
      requires a.element.Some? && b.element.Some? && length(a.pos.Sub(b.pos)) != 0.0
      ensures var dist := length(a.pos.Sub(b.pos));
        r.formed <==> IonicGuardAsWritten(coulombK, a, b, dist)
                      && |(if DonorIsA(a, b) then a else b).electrons| > 0
      ensures !r.formed ==> r.a == a && r.b == b
      ensures r.formed && DonorIsA(a, b) ==>
        IonicTransfer(a, r.a, b, r.b, idxA, idxB, -DeltaE(coulombK, a, b, length(a.pos.Sub(b.pos))))
      ensures r.formed && !DonorIsA(a, b) ==>
        IonicTransfer(b, r.b, a, r.a, idxB, idxA, -DeltaE(coulombK, b, a, length(a.pos.Sub(b.pos))))
      ensures r.formed ==> BondAdded(a, r.a, b, r.b, idxA, idxB)
      ensures r.formed ==>
        var e := r.a.bonds[|a.bonds|];
        e.kind == Ionic && e.order == 1 && e.strength >= 0.0
    {
      var dist := length(a.pos.Sub(b.pos));
      var donorIsA := DonorIsA(a, b);
      var donor := if donorIsA then a else b;
      var acceptor := if donorIsA then b else a;
      var donorIdx := if donorIsA then idxA else idxB;
      var accIdx := if donorIsA then idxB else idxA;
      if !WantsToLoseElectron(donor) || !WantsElectron(acceptor) then Attempt(false, a, b)
      else
        var deltaE := DeltaE(coulombK, donor, acceptor, dist);
        if deltaE > 0.0 || |donor.electrons| == 0 then Attempt(false, a, b)
        else
          var (d1, e) := RemoveOuterElectron(donor);
          var c1 := AddElectron(acceptor, e);
          var d2 := d1.(bonds := d1.bonds + [Bond(accIdx, Ionic, 1, -deltaE)]);
          var c2 := c1.(bonds := c1.bonds + [Bond(donorIdx, Ionic, 1, -deltaE)]);
          if donorIsA then Attempt(true, d2, c2) else Attempt(true, c2, d2)
    }

    // ---- the form sweep as a function ------------------------------------------

    /** Pair (i, j) of `cur` after an attempt on it: both atoms replaced by
        the attempt's results when a bond formed, nothing changed
        otherwise. */
    static function Applied(cur: seq<Atom>, i: int, j: int, r: Attempt): (out: seq<Atom>)
      requires 0 <= i < j < |cur|
      requires r.formed ==> BondAdded(cur[i], r.a, cur[j], r.b, i, j) && SameAtom(cur[i], r.a) && SameAtom(cur[j], r.b)
      requires r.formed ==> r.a.bonds[|cur[i].bonds|].order >= 0
      ensures SameAtoms(cur, out)
      ensures forall k | 0 <= k < |cur| :: Grows(cur[k], out[k])
      ensures forall k | 0 <= k < |cur| && k != i && k != j :: out[k] == cur[k]
      ensures out != cur ==> BondAdded(cur[i], out[i], cur[j], out[j], i, j)
    {
      if r.formed then
        assert r.a.bonds == cur[i].bonds + [r.a.bonds[|cur[i].bonds|]];
        cur[i := r.a][j := r.b]
      else cur
    }

    /** One pair (i, j), i < j, of the form sweep on `cur`: left alone when
        the atoms are farther apart than the bonding range, when atom i
        already lists j, or when the pair is not bondable; otherwise the
        ionic attempt when the electronegativities differ by more than the
        ionic threshold and the covalent one else, both atoms replaced when
        the attempt succeeds. Only bonds are appended, and only to i and j. */
    function PairFormed(cur: seq<Atom>, i: int, j: int, length: Vec3 -> real): (out: seq<Atom>)
      requires 0 <= i < j < |cur|
      requires IonicRoute(cur[i], cur[j], ionicThreshold) ==> length(cur[i].pos.Sub(cur[j].pos)) != 0.0
      ensures SameAtoms(cur, out)
      ensures forall k | 0 <= k < |cur| :: Grows(cur[k], out[k])
      ensures forall k | 0 <= k < |cur| && k != i && k != j :: out[k] == cur[k]
      ensures out != cur ==> BondAdded(cur[i], out[i], cur[j], out[j], i, j) && !HasBondTo(cur[i].bonds, j)
    {
      if length(cur[i].pos.Sub(cur[j].pos)) > bondingRange || HasBondTo(cur[i].bonds, j) || !Bondable(cur[i], cur[j])
      then cur
      else if IonicRoute(cur[i], cur[j], ionicThreshold) then Applied(cur, i, j, TryIonicBond(cur[i], cur[j], i, j, length))
      else Applied(cur, i, j, TryCovalentBond(cur[i], cur[j], i, j))
    }

    /** The population once the form sweep on `atoms` has handled every pair
        of the rows before i and the pairs (i, i+1) .. (i, j-1) of row i, in
        the order of the nested loops. Swept(atoms, |atoms|, |atoms| + 1) is
        the end of the sweep. */
    function Swept(atoms: seq<Atom>, i: nat, j: nat, length: Vec3 -> real): (out: seq<Atom>)
      requires IonicApart(atoms, length, ionicThreshold)
      requires i < j <= |atoms| || (i == |atoms| && j == i + 1)
      ensures SameSites(atoms, out)
      decreases i, j, 1
    {
      if j == i + 1 then
        if i == 0 then atoms else Swept(atoms, i - 1, |atoms|, length)
      else AfterPair(atoms, i, j - 1, length)
    }

    /** The population once the form sweep on `atoms` has handled pair
        (i, j). */
    function AfterPair(atoms: seq<Atom>, i: nat, j: nat, length: Vec3 -> real): (out: seq<Atom>)
      requires IonicApart(atoms, length, ionicThreshold) && i < j < |atoms|
      ensures SameSites(atoms, out)
      decreases i, j, 2
    {
      var s := Swept(atoms, i, j, length);
      IonicApartSameSites(atoms, s, length, ionicThreshold);
      var o := PairFormed(s, i, j, length);
      SitesThenSame(atoms, s, o);
      o
    }

    /** Growth composes atom by atom. */
    static lemma GrowsAll(a: seq<Atom>, b: seq<Atom>, c: seq<Atom>)
      requires |a| == |b| == |c|
      requires forall k | 0 <= k < |a| :: Grows(a[k], b[k])
      requires forall k | 0 <= k < |a| :: Grows(b[k], c[k])
      ensures forall k | 0 <= k < |a| :: Grows(a[k], c[k])
    {
      forall k | 0 <= k < |a|
        ensures Grows(a[k], c[k])
      {
        GrowsTrans(a[k], b[k], c[k]);
      }
    }

    /** The sweep position (i1, j1) comes no later than (i2, j2). */
    static predicate NoLater(i1: nat, j1: nat, i2: nat, j2: nat) {
      i1 < i2 || (i1 == i2 && j1 <= j2)
    }

    /** Later in the sweep every atom has only grown. */
    lemma {:induction false} SweptGrows(atoms: seq<Atom>, i1: nat, j1: nat, i2: nat, j2: nat, length: Vec3 -> real)
      requires IonicApart(atoms, length, ionicThreshold)
      requires i1 < j1 <= |atoms| || (i1 == |atoms| && j1 == i1 + 1)
      requires i2 < j2 <= |atoms| || (i2 == |atoms| && j2 == i2 + 1)
      requires NoLater(i1, j1, i2, j2)
      ensures forall k | 0 <= k < |atoms| :: Grows(Swept(atoms, i1, j1, length)[k], Swept(atoms, i2, j2, length)[k])
      decreases i2, j2, 1
    {
      if i1 == i2 && j1 == j2 {
        GrowsAll(Swept(atoms, i1, j1, length), Swept(atoms, i1, j1, length), Swept(atoms, i1, j1, length));
      } else if j2 == i2 + 1 {
        SweptGrowsRow(atoms, i1, j1, i2, length);
      } else {
        SweptGrowsPair(atoms, i1, j1, i2, j2 - 1, length);
      }
    }

    /** SweptGrows up to the start of a row, through the end of the row before. */
    lemma {:induction false} SweptGrowsRow(atoms: seq<Atom>, i1: nat, j1: nat, i2: nat, length: Vec3 -> real)
      requires IonicApart(atoms, length, ionicThreshold)
      requires i1 < j1 <= |atoms| || (i1 == |atoms| && j1 == i1 + 1)
      requires 0 < i2 <= |atoms| && NoLater(i1, j1, i2 - 1, |atoms|)
      ensures forall k | 0 <= k < |atoms| :: Grows(Swept(atoms, i1, j1, length)[k], Swept(atoms, i2, i2 + 1, length)[k])
      decreases i2, i2 + 1, 0
    {
      SweptGrows(atoms, i1, j1, i2 - 1, |atoms|, length);
      SweptRowEnd(atoms, i2 - 1, length);
    }

    /** SweptGrows up to one more pair of a row. */
    lemma {:induction false} SweptGrowsPair(atoms: seq<Atom>, i1: nat, j1: nat, i2: nat, j2: nat, length: Vec3 -> real)
      requires IonicApart(atoms, length, ionicThreshold)
      requires i1 < j1 <= |atoms| || (i1 == |atoms| && j1 == i1 + 1)
      requires i2 < j2 < |atoms| && NoLater(i1, j1, i2, j2)
      ensures forall k | 0 <= k < |atoms| :: Grows(Swept(atoms, i1, j1, length)[k], Swept(atoms, i2, j2 + 1, length)[k])
      decreases i2, j2 + 1, 0
    {
      SweptGrows(atoms, i1, j1, i2, j2, length);
      SweptGrowsStep(atoms, i2, j2, length);
      GrowsAll(Swept(atoms, i1, j1, length), Swept(atoms, i2, j2, length), Swept(atoms, i2, j2 + 1, length));
    }

    /** One more pair of the same row. */
    lemma SweptStep(atoms: seq<Atom>, i: nat, j: nat, length: Vec3 -> real)
      requires IonicApart(atoms, length, ionicThreshold) && i < j < |atoms|
      ensures IonicApart(Swept(atoms, i, j, length), length, ionicThreshold)
      ensures AllHaveElements(atoms) ==> AllHaveElements(Swept(atoms, i, j, length))
      ensures Swept(atoms, i, j + 1, length) == PairFormed(Swept(atoms, i, j, length), i, j, length)
    {
      IonicApartSameSites(atoms, Swept(atoms, i, j, length), length, ionicThreshold);
      assert Swept(atoms, i, j + 1, length) == AfterPair(atoms, i, j, length);
    }

    /** One pair of the sweep only grows atoms. */
    lemma SweptGrowsStep(atoms: seq<Atom>, i: nat, j: nat, length: Vec3 -> real)
      requires IonicApart(atoms, length, ionicThreshold) && i < j < |atoms|
      ensures forall k | 0 <= k < |atoms| :: Grows(Swept(atoms, i, j, length)[k], Swept(atoms, i, j + 1, length)[k])
    {
      SweptStep(atoms, i, j, length);
    }

    /** The end of row i is the start of row i + 1. */
    lemma SweptRowEnd(atoms: seq<Atom>, i: nat, length: Vec3 -> real)
      requires IonicApart(atoms, length, ionicThreshold) && i < |atoms|
      ensures Swept(atoms, i + 1, i + 2, length) == Swept(atoms, i, |atoms|, length)
    {
    }

    /** Every pair in bonding range that goes to the covalent attempt is
        bonded, or one of its atoms has no valence left. */
    predicate CovalentSaturated(out: seq<Atom>, length: Vec3 -> real) {
      forall i, j | 0 <= i < j < |out| && Bondable(out[i], out[j]) && !IonicRoute(out[i], out[j], ionicThreshold)
                    && length(out[i].pos.Sub(out[j].pos)) <= bondingRange ::
        HasBondTo(out[i].bonds, j) || AvailableValence(out[i]) == 0 || AvailableValence(out[j]) == 0
    }

    /** The covalent attempt on pair (i, j) leaves it bonded or one of its
        atoms without valence, and later pairs only add bonds. */
    lemma CovalentComplete(atoms: seq<Atom>, i: nat, j: nat, length: Vec3 -> real)
      requires IonicApart(atoms, length, ionicThreshold) && i < j < |atoms|
      requires Bondable(atoms[i], atoms[j]) && !IonicRoute(atoms[i], atoms[j], ionicThreshold)
      requires length(atoms[i].pos.Sub(atoms[j].pos)) <= bondingRange
      ensures var out := Swept(atoms, |atoms|, |atoms| + 1, length);
        HasBondTo(out[i].bonds, j) || AvailableValence(out[i]) == 0 || AvailableValence(out[j]) == 0
    {
      var n := |atoms|;
      var t := Swept(atoms, i, j + 1, length);
      var out := Swept(atoms, n, n + 1, length);
      CovalentAt(atoms, i, j, length);
      SweptGrows(atoms, i, j + 1, n, n + 1, length);
      GrowsKeeps(t[i], out[i], j);
      GrowsKeeps(t[j], out[j], j);
    }

    /** Right after the covalent attempt on pair (i, j) the pair is bonded or
        one of its atoms has no valence left. */
    lemma CovalentAt(atoms: seq<Atom>, i: nat, j: nat, length: Vec3 -> real)
      requires IonicApart(atoms, length, ionicThreshold) && i < j < |atoms|
      requires Bondable(atoms[i], atoms[j]) && !IonicRoute(atoms[i], atoms[j], ionicThreshold)
      requires length(atoms[i].pos.Sub(atoms[j].pos)) <= bondingRange
      ensures var t := Swept(atoms, i, j + 1, length);
        HasBondTo(t[i].bonds, j) || AvailableValence(t[i]) == 0 || AvailableValence(t[j]) == 0
    {
      var s := Swept(atoms, i, j, length);
      var t := Swept(atoms, i, j + 1, length);
      SweptStep(atoms, i, j, length);
      assert s[i].pos == atoms[i].pos && s[j].pos == atoms[j].pos;
      assert Bondable(s[i], s[j]) && !IonicRoute(s[i], s[j], ionicThreshold);
      if !HasBondTo(s[i].bonds, j) {
        var r := TryCovalentBond(s[i], s[j], i, j);
        if r.formed {
          assert t[i] == r.a && r.a.bonds[|s[i].bonds|] in t[i].bonds;
        }
      } else {
        GrowsKeeps(s[i], t[i], j);
      }
    }

    /** The end of the sweep leaves no covalent pair in range unbonded while
        both of its atoms have valence. */
    lemma SweptSaturated(atoms: seq<Atom>, length: Vec3 -> real)
      requires IonicApart(atoms, length, ionicThreshold)
      ensures CovalentSaturated(Swept(atoms, |atoms|, |atoms| + 1, length), length)
    {
      var out := Swept(atoms, |atoms|, |atoms| + 1, length);
      forall i, j | 0 <= i < j < |out| && Bondable(out[i], out[j]) && !IonicRoute(out[i], out[j], ionicThreshold)
                    && length(out[i].pos.Sub(out[j].pos)) <= bondingRange
        ensures HasBondTo(out[i].bonds, j) || AvailableValence(out[i]) == 0 || AvailableValence(out[j]) == 0
      {
        assert out[i].pos == atoms[i].pos && out[j].pos == atoms[j].pos;
        CovalentComplete(atoms, i, j, length);
      }
    }

    /** The donor of pair (i, j) had no electron left when the sweep reached
        the pair. */
    ghost predicate DonorSpent(atoms: seq<Atom>, i: nat, j: nat, length: Vec3 -> real)
      requires IonicApart(atoms, length, ionicThreshold) && i < j < |atoms|
      requires atoms[i].element.Some? && atoms[j].element.Some?
    {
      var s := Swept(atoms, i, j, length);
      |(if DonorIsA(atoms[i], atoms[j]) then s[i] else s[j]).electrons| == 0
    }

    /** Every pair in bonding range that goes to the ionic attempt and passes
        its element and energy checks ends the sweep bonded, unless its donor
        had already given away every electron when the pair was reached. */
    ghost predicate IonicSettled(atoms: seq<Atom>, out: seq<Atom>, length: Vec3 -> real)
      requires IonicApart(atoms, length, ionicThreshold) && |out| == |atoms|
    {
      forall i, j | 0 <= i < j < |atoms| && IonicRoute(atoms[i], atoms[j], ionicThreshold)
                    && length(atoms[i].pos.Sub(atoms[j].pos)) <= bondingRange
                    && IonicGuardAsWritten(coulombK, atoms[i], atoms[j], length(atoms[i].pos.Sub(atoms[j].pos))) ::
        HasBondTo(out[i].bonds, j) || DonorSpent(atoms, i, j, length)
    }

    /** The ionic attempt on pair (i, j) forms the bond whenever its checks
        pass and the donor still has an electron; later pairs keep it. */
    lemma IonicComplete(atoms: seq<Atom>, i: nat, j: nat, length: Vec3 -> real)
      requires IonicApart(atoms, length, ionicThreshold) && i < j < |atoms|
      requires IonicRoute(atoms[i], atoms[j], ionicThreshold)
      requires length(atoms[i].pos.Sub(atoms[j].pos)) <= bondingRange
      requires IonicGuardAsWritten(coulombK, atoms[i], atoms[j], length(atoms[i].pos.Sub(atoms[j].pos)))
      ensures HasBondTo(Swept(atoms, |atoms|, |atoms| + 1, length)[i].bonds, j) || DonorSpent(atoms, i, j, length)
    {
      var n := |atoms|;
      var t := Swept(atoms, i, j + 1, length);
      var out := Swept(atoms, n, n + 1, length);
      IonicAt(atoms, i, j, length);
      SweptGrows(atoms, i, j + 1, n, n + 1, length);
      GrowsKeeps(t[i], out[i], j);
    }

    /** Right after the ionic attempt on pair (i, j) the pair is bonded,
        unless the donor had no electron left. */
    lemma IonicAt(atoms: seq<Atom>, i: nat, j: nat, length: Vec3 -> real)
      requires IonicApart(atoms, length, ionicThreshold) && i < j < |atoms|
      requires IonicRoute(atoms[i], atoms[j], ionicThreshold)
      requires length(atoms[i].pos.Sub(atoms[j].pos)) <= bondingRange
      requires IonicGuardAsWritten(coulombK, atoms[i], atoms[j], length(atoms[i].pos.Sub(atoms[j].pos)))
      ensures HasBondTo(Swept(atoms, i, j + 1, length)[i].bonds, j) || DonorSpent(atoms, i, j, length)
    {
      var s := Swept(atoms, i, j, length);
      var t := Swept(atoms, i, j + 1, length);
      var dist := length(atoms[i].pos.Sub(atoms[j].pos));
      SweptStep(atoms, i, j, length);
      assert s[i].pos == atoms[i].pos && s[j].pos == atoms[j].pos;
      assert s[i].element == atoms[i].element && s[j].element == atoms[j].element;
      assert IonicRoute(s[i], s[j], ionicThreshold);
      if !HasBondTo(s[i].bonds, j) && !DonorSpent(atoms, i, j, length) {
        IntentIgnoresState(s[i], atoms[i]);
        IntentIgnoresState(s[j], atoms[j]);
        assert IonicGuardAsWritten(coulombK, s[i], s[j], dist);
        var r := TryIonicBond(s[i], s[j], i, j, length);
        assert r.formed;
        assert t[i] == r.a && r.a.bonds[|s[i].bonds|] in t[i].bonds;
      } else if HasBondTo(s[i].bonds, j) {
        GrowsKeeps(s[i], t[i], j);
      }
    }

    /** What the break phase leaves of `atoms`: only bond lists, electrons,
        charges and cached valences change, every list keeps exactly its
        surviving entries, and an atom that loses no ionic bond keeps its
        electrons and charge. */
    ghost predicate BreakOutcome(atoms: seq<Atom>, mid: seq<Atom>, length: Vec3 -> real)
      reads this
    {
      SameAtoms(atoms, mid)
      && (forall k | 0 <= k < |mid| :: mid[k].bonds == Survivors(atoms, Rule(length), k, atoms[k].bonds))
      && IonsKept(atoms, Rule(length), mid)
    }

    /** `out` is what updateBonds makes of `atoms`: a break-phase outcome
        followed by the whole form sweep. */
    ghost predicate Rebonded(atoms: seq<Atom>, out: seq<Atom>, length: Vec3 -> real)
      reads this
    {
      exists mid :: BreakOutcome(atoms, mid, length) && IonicApart(mid, length, ionicThreshold)
                    && out == Swept(mid, |mid|, |mid| + 1, length)
    }

    /** A formed pair keeps the form invariant. */
    lemma PairFormedInv(atoms: seq<Atom>, cur: seq<Atom>, i: int, j: int, length: Vec3 -> real)
      requires AllHaveElements(atoms) && IonicApart(atoms, length, ionicThreshold) && 0 <= i < j < |atoms|
      requires FormInv(atoms, cur, length, bondingRange, ionicThreshold)
      ensures IonicRoute(cur[i], cur[j], ionicThreshold) ==> length(cur[i].pos.Sub(cur[j].pos)) != 0.0
      ensures FormInv(atoms, PairFormed(cur, i, j, length), length, bondingRange, ionicThreshold)
    {
      assert cur[i] == atoms[i].(electrons := cur[i].electrons, charge := cur[i].charge,
                                 bonds := cur[i].bonds, effectiveValence := cur[i].effectiveValence);
      assert cur[j] == atoms[j].(electrons := cur[j].electrons, charge := cur[j].charge,
                                 bonds := cur[j].bonds, effectiveValence := cur[j].effectiveValence);
      assert IonicRoute(cur[i], cur[j], ionicThreshold) == IonicRoute(atoms[i], atoms[j], ionicThreshold);
      var out := PairFormed(cur, i, j, length);
      if out != cur {
        var r := if IonicRoute(cur[i], cur[j], ionicThreshold) then TryIonicBond(cur[i], cur[j], i, j, length)
                 else TryCovalentBond(cur[i], cur[j], i, j);
        assert r.formed && out == cur[i := r.a][j := r.b];
        var b := r.a.bonds[|cur[i].bonds|];
        assert r.a.bonds == cur[i].bonds + [b];
        assert Formable(atoms, length, bondingRange, ionicThreshold, i, b);
        AddBondPair(cur, out, i, j, b);
        TwoAtomUpdate(atoms, cur, out, i, j);
        FormStep(atoms, cur, out, length, bondingRange, ionicThreshold, i, j, b);
      }
    }

    /** Every point of the sweep keeps the form invariant. */
    lemma {:induction false} SweptInv(atoms: seq<Atom>, i: nat, j: nat, length: Vec3 -> real)
      requires WellFormed(atoms) && AllHaveElements(atoms) && IonicApart(atoms, length, ionicThreshold)
      requires i < j <= |atoms| || (i == |atoms| && j == i + 1)
      ensures FormInv(atoms, Swept(atoms, i, j, length), length, bondingRange, ionicThreshold)
      decreases i, j, 1
    {
      if j == i + 1 {
        if i == 0 {
          FormStart(atoms, length, bondingRange, ionicThreshold);
        } else {
          SweptInvRow(atoms, i, length);
        }
      } else {
        SweptInvStep(atoms, i, j - 1, length);
      }
    }

    /** The start of a row keeps the form invariant of the end of the row
        before. */
    lemma {:induction false} SweptInvRow(atoms: seq<Atom>, i: nat, length: Vec3 -> real)
      requires WellFormed(atoms) && AllHaveElements(atoms) && IonicApart(atoms, length, ionicThreshold)
      requires 0 < i <= |atoms|
      ensures FormInv(atoms, Swept(atoms, i, i + 1, length), length, bondingRange, ionicThreshold)
      decreases i, i + 1, 0
    {
      SweptInv(atoms, i - 1, |atoms|, length);
      SweptRowEnd(atoms, i - 1, length);
    }

    /** One pair of the sweep keeps the form invariant. */
    lemma {:induction false} SweptInvStep(atoms: seq<Atom>, i: nat, j: nat, length: Vec3 -> real)
      requires WellFormed(atoms) && AllHaveElements(atoms) && IonicApart(atoms, length, ionicThreshold) && i < j < |atoms|
      ensures FormInv(atoms, Swept(atoms, i, j + 1, length), length, bondingRange, ionicThreshold)
      decreases i, j + 1, 0
    {
      SweptInv(atoms, i, j, length);
      SweptStep(atoms, i, j, length);
      PairFormedInv(atoms, Swept(atoms, i, j, length), i, j, length);
    }

    // ---- the form sweep --------------------------------------------------------

    /** The form phase of updateBonds: every pair i < j is considered once,
        in order, as PairFormed says. Only bonds are added, each between
        atoms within bonding range as the ionic or the covalent attempt
        decides; the electron and charge totals are kept; afterwards no
        covalent pair in range is left unbonded while both atoms have
        valence, and no ionic pair in range that passes the attempt's checks
        is left unbonded unless its donor had run out of electrons. */
    method FormPhase(atoms: seq<Atom>, length: Vec3 -> real) returns (out: seq<Atom>)
      requires WellFormed(atoms) && AllHaveElements(atoms) && IonicApart(atoms, length, ionicThreshold)
      ensures out == Swept(atoms, |atoms|, |atoms| + 1, length)
      ensures FormInv(atoms, out, length, bondingRange, ionicThreshold)
      ensures TotalCharge(out) == TotalCharge(atoms) && TotalElectrons(out) == TotalElectrons(atoms)
      ensures AllBalanced(atoms) ==> AllBalanced(out)
      ensures CovalentSaturated(out, length)
      ensures IonicSettled(atoms, out, length)
    {
      out := atoms;
      var i := 0;
      while i < |atoms|
        invariant 0 <= i <= |atoms|
        invariant out == Swept(atoms, i, i + 1, length)
      {
        out := FormRow(atoms, out, i, length);
        i := i + 1;
      }
      SweptInv(atoms, |atoms|, |atoms| + 1, length);
      SweptSaturated(atoms, length);
      forall i, j | 0 <= i < j < |atoms| && IonicRoute(atoms[i], atoms[j], ionicThreshold)
                    && length(atoms[i].pos.Sub(atoms[j].pos)) <= bondingRange
                    && IonicGuardAsWritten(coulombK, atoms[i], atoms[j], length(atoms[i].pos.Sub(atoms[j].pos)))
        ensures HasBondTo(out[i].bonds, j) || DonorSpent(atoms, i, j, length)
      {
        IonicComplete(atoms, i, j, length);
      }
    }

    /** Row i of the form sweep: the pairs (i, j) for j > i. */
    method FormRow(atoms: seq<Atom>, cur: seq<Atom>, i: nat, length: Vec3 -> real) returns (out: seq<Atom>)
      requires AllHaveElements(atoms) && IonicApart(atoms, length, ionicThreshold) && i < |atoms|
      requires cur == Swept(atoms, i, i + 1, length)
      ensures out == Swept(atoms, i + 1, i + 2, length)
    {
      out := cur;
      var j := i + 1;
      while j < |atoms|
        invariant i + 1 <= j <= |atoms|
        invariant out == Swept(atoms, i, j, length)
      {
        out := FormNext(atoms, out, i, j, length);
        j := j + 1;
      }
      SweptRowEnd(atoms, i, length);
    }

    /** Pair (i, j) of the sweep, on the population the sweep reached. */
    method FormNext(atoms: seq<Atom>, cur: seq<Atom>, i: nat, j: nat, length: Vec3 -> real) returns (out: seq<Atom>)
      requires AllHaveElements(atoms) && IonicApart(atoms, length, ionicThreshold) && i < j < |atoms|
      requires cur == Swept(atoms, i, j, length)
      ensures out == Swept(atoms, i, j + 1, length)
    {
      SweptStep(atoms, i, j, length);
      out := FormPair(cur, i, j, length);
    }

    /** One pair of the form sweep: skipped when out of range, already
        bonded, involving a noble gas or lacking electronegativity data;
        otherwise sent to the ionic attempt when the electronegativities
        differ by more than the ionic threshold and to the covalent one
        else. */
    method FormPair(cur: seq<Atom>, i: int, j: int, length: Vec3 -> real) returns (out: seq<Atom>)
      requires AllHaveElements(cur) && IonicApart(cur, length, ionicThreshold) && 0 <= i < j < |cur|
      ensures out == PairFormed(cur, i, j, length)
    {
      var dist := length(cur[i].pos.Sub(cur[j].pos));
      var bonded := IsBonded(cur[i].bonds, j);
      var ei := cur[i].element.value;
      var ej := cur[j].element.value;
      if dist > bondingRange || bonded || ei.category == "noble_gas" || ej.category == "noble_gas"
         || ei.electronegativity < 0.01 || ej.electronegativity < 0.01 {
        out := cur;
      } else {
        out := FormAttempt(cur, i, j, length);
      }
    }

    /** The attempt on a pair that passed the form sweep's filters, and the
        write-back of both atoms when it succeeds. */
    method FormAttempt(cur: seq<Atom>, i: int, j: int, length: Vec3 -> real) returns (out: seq<Atom>)
      requires IonicApart(cur, length, ionicThreshold) && 0 <= i < j < |cur|
      requires length(cur[i].pos.Sub(cur[j].pos)) <= bondingRange && !HasBondTo(cur[i].bonds, j)
      requires Bondable(cur[i], cur[j])
      ensures out == PairFormed(cur, i, j, length)
    {
      var chiA := cur[i].element.value.electronegativity;
      var chiB := cur[j].element.value.electronegativity;
      var r: Attempt;
      if AbsR(chiA - chiB) > ionicThreshold {
        r := TryIonicBond(cur[i], cur[j], i, j, length);
      } else {
        r := TryCovalentBond(cur[i], cur[j], i, j);
      }
      out := cur;
      if r.formed {
        out := cur[i := r.a][j := r.b];
      }
    }

    /** updateBonds: the break phase, then the form phase. Afterwards every
        atom's list is what survived the break phase followed by formable
        entries only, the graph is still well formed, no electron or unit of
        charge was created or lost, and no covalent pair in range is left
        unbonded while both of its atoms have valence. */
    method UpdateBonds(atoms: seq<Atom>, length: Vec3 -> real) returns (out: seq<Atom>)
      requires WellFormed(atoms) && Symmetric(length) && AllHaveElements(atoms)
      requires IonicApart(atoms, length, ionicThreshold)
      ensures Rebonded(atoms, out, length)
      ensures SameAtoms(atoms, out) && WellFormed(out)
      ensures forall k | 0 <= k < |out| :: Survivors(atoms, Rule(length), k, atoms[k].bonds) <= out[k].bonds
      ensures forall k, p | 0 <= k < |out| && |Survivors(atoms, Rule(length), k, atoms[k].bonds)| <= p < |out[k].bonds| ::
        Formable(atoms, length, bondingRange, ionicThreshold, k, out[k].bonds[p])
      ensures TotalCharge(out) == TotalCharge(atoms) && TotalElectrons(out) == TotalElectrons(atoms)
      ensures AllBalanced(atoms) ==> AllBalanced(out)
      ensures CovalentSaturated(out, length)
    {
      var mid := BreakPhase(atoms, length);
      KeepFilters(atoms, mid, length, ionicThreshold);
      out := FormPhase(mid, length);
      assert BreakOutcome(atoms, mid, length);
      ComposePhases(atoms, mid, out, Rule(length), length, bondingRange, ionicThreshold);
    }
  }
}
