/** The read-only periodic table: a map from atomic number to element record. */
module Elements {

  datatype ElementData = ElementData(
    atomicNumber: int,
    symbol: string,
    name: string,
    atomicMass: real,
    electronegativity: real,
    ionizationEnergy: real,   // eV
    electronAffinity: real,   // eV
    atomicRadius: real,       // pm
    covalentRadius: real,     // pm
    vdwRadius: real,          // pm
    valenceElectrons: int,
    period: int,
    group: int,
    category: string)

  /** The default-constructed record `dummy_` returned for unknown numbers. */
  const Dummy := ElementData(0, "", "", 0.0, 0.0, 0.0, 0.0, 0.0, 0.0, 0.0, 0, 0, 0, "")

  /** The loaded table; the loader stores each record under its own atomic number. */
  type ElementTable = map<int, ElementData>

  predicate Keyed(t: ElementTable) {
    forall z | z in t :: t[z].atomicNumber == z
  }

  /** PeriodicTable::get: the record stored under `z`, or the zero record. */
  function Get(t: ElementTable, z: int): (e: ElementData)
    ensures z in t ==> e == t[z]
    ensures z !in t ==> e == Dummy
    ensures Keyed(t) ==> e.atomicNumber == z || e.atomicNumber == 0
  {
    if z in t then t[z] else Dummy
  }
}
