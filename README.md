# Atom simulation: the discrete chemistry core

A Dafny model of the chemistry layer of a small C++ molecular sandbox.
In the sandbox, atoms of real elements move in a reflective box and
their bonds emerge from element data. The model covers:

- **Electron shells** (`electron.dfy`). The Aufbau filler emits
  `(n, l, m, s)` quantum numbers from a 20-entry table in filling order.
  It also finds the outermost shell and counts the valence electrons.
- **Atoms** (`atom.dfy`, `element.dfy`).
  - An atom is built from a read-only periodic table, which returns a zero
    record for unknown atomic numbers.
  - Available valence is `max(0, valence - bond orders)`.
  - Donor and acceptor tests.
  - Moving one electron out or in shifts the charge by one.
- **Bond graph** (`bondgraph.dfy`, `interaction.dfy`).
  - The interaction engine's `updateBonds` runs a break phase, then a
    form phase.
  - The break phase erases stretched or thermally broken entries from
    both atoms' lists. It may hand an electron back.
  - The form phase sends each pair in range to the ionic or the covalent
    attempt. Both attempts push mirrored entries.
  - `computeForces` resets every force, then adds `+f` to atom i and
    `-f` to atom j for each pair. The pair force is the bond spring,
    Coulomb and Lennard-Jones terms.
- **Molecules** (`molecule.dfy`, `formula.dfy`).
  - The molecule tracker runs a breadth-first search over the bond lists.
    Each connected component becomes a molecule with its mass, centre of
    mass and bond energy.
  - Its formula is tallied in `std::map` order, written carbon first,
    then hydrogen, then the rest.
- **Slater's rules and the colour ramp** (`quantum.dfy`): the effective
  nuclear charge as a shielding sum floored at 1, and the fire heat-map
  stop selection.
- **The simulation** (`simulation.dfy`).
  - `spawnAtom` and `clear`.
  - The velocity-Verlet `step`: half-kick, drift into the reflective box,
    forces, half-kick, then the Berendsen thermostat. The engine's
    `updateBonds` runs on every tenth step, and the molecules are rebuilt
    on step 0.

`wrappers.dfy` holds `Option` and small min/max/clamp helpers.
`vectors.dfy` holds the 3- and 4-component vectors over `real`.

The model keeps two source behaviours worth noting:

- The break phase returns an ionic bond's electron only when the atom
  being swept is positive. A bond whose positive atom has the higher index
  is erased from both sides when the lower, negative atom is swept, so no
  electron goes back.
- Nothing in the engine updates the bond counters, so `step` rebuilds
  the molecule list only on step 0.

## Model

| member | source | states |
|---|---|---|
| Electrons.FillElectronShells | src/physics/electron.cpp:16-39 | the filler returns the first electrons of the filling sequence: none for Z <= 0, exactly Z for 0 <= Z <= 132, and 132 for larger Z |
| Electrons.TotalCapacity | src/physics/electron.cpp:7-14 | the twenty subshells of the table hold 132 electrons together |
| Electrons.TableShape | src/physics/electron.cpp:7-10 | every table entry is a real subshell, 0 <= l < n |
| Electrons.TableDistinct | src/physics/electron.cpp:7-10 | no subshell is listed twice |
| Electrons.TableOrdered | src/physics/electron.cpp:6-10 | the table lists subshells by increasing n + l, then by increasing n |
| Electrons.ConfigurationValid | src/physics/electron.cpp:26-32 | every emitted electron has 0 <= l < n, -l <= m <= l and spin +1 or -1 |
| Electrons.ConfigurationOrdered | src/physics/electron.cpp:20-36 | electrons come out in table order of subshells; within a subshell m ascends from -l, and spin +1 comes before -1 for each m |
| Electrons.ConfigurationDistinct | src/physics/electron.cpp:23-36 | no two electrons of a configuration share all four quantum numbers |
| Electrons.SubshellCapacity | src/physics/electron.cpp:14-36 | maxInSubshell's 2(2l+1) is exactly the number of (m, s) states the inner loops visit: slot t of the filling order is a valid state, and every valid state has exactly one slot below the capacity |
| Electrons.ConfigurationSubshellBound | src/physics/electron.cpp:14-36 | no subshell receives more than 2(2l+1) electrons, and a subshell missing from the table receives none |
| Electrons.ConfigurationPrefix | src/physics/electron.cpp:16-39 | the configuration for Z is a prefix of the one for Z+1, at most one electron shorter |
| Electrons.OutermostShell | src/physics/electron.cpp:50-55 | the loop returns the largest principal number (0 for an empty list) |
| Electrons.OutermostIsMax | src/physics/electron.cpp:50-55 | that value is at least 0, bounds every n in the list, and is attained by some electron when positive |
| Electrons.CountValenceElectrons | src/physics/electron.cpp:41-48 | the count is the number of electrons whose n is the outermost shell |
| Electrons.ValenceCount | src/physics/electron.cpp:41-48 | the valence count is 0 for an empty list and at least 1 for a non-empty list of electrons in real shells |
| Elements.Get | src/physics/element.cpp:71-74 | the record stored under z, or the zero record when z is missing; with a keyed table its number is z or 0 |
| Atoms.TotalBondOrder | src/physics/atom.cpp:17-21 | the loop returns the sum of the orders of the bond list |
| Atoms.BondOrderSumAppend | src/physics/atom.cpp:17-21 | one more entry adds exactly its order to that sum |
| Atoms.AvailableValence | src/physics/atom.cpp:23-28 | never negative; 0 without element data; otherwise at least valence minus the bond orders, and equal to it whenever positive |
| Atoms.UpdateEffectiveValence | src/physics/atom.cpp:30-32 | caches the available valence and changes nothing else |
| Atoms.WantsElectron | src/physics/atom.cpp:34-38 | only an atom with element data can want an electron; an affinity of at most 0.3 eV or 8 or more valence electrons rules it out |
| Atoms.WantsToLoseElectron | src/physics/atom.cpp:40-44 | only an atom with element data can want to lose an electron; an ionization energy of 8 eV or more or more than 2 valence electrons rules it out |
| Atoms.IntentIgnoresState | src/physics/atom.cpp:34-44 | whether an atom wants to gain or to lose an electron depends on its element record alone |
| Atoms.RemoveOuterElectron | src/physics/atom.cpp:46-52 | returns the last electron, leaves the list one shorter, raises the charge by 1, refreshes the valence cache, changes nothing else, and keeps charge + electrons = Z |
| Atoms.AddElectron | src/physics/atom.cpp:54-58 | appends the electron, lowers the charge by 1, refreshes the valence cache, changes nothing else, and keeps charge + electrons = Z |
| Atoms.AddAfterRemove | src/physics/atom.cpp:46-58 | giving back the electron just removed restores the atom |
| Atoms.RemoveAfterAdd | src/physics/atom.cpp:46-58 | removing the electron just added restores the atom and returns that electron |
| Atoms.Init | src/physics/atom.cpp:6-15 | sets the number, element record, electron configuration, charge 0, mass and radius max(atomicRadius/100, 0.5); keeps position, velocity, force and bonds; for 0 <= Z <= 132 the atom is charge-balanced |
| BondGraph.UnbondedWellFormed | src/physics/interaction.cpp:140-141 | a population without bonds forms a well-formed bond graph |
| BondGraph.RemoveRefsMember | src/physics/interaction.cpp:153-157 | remove_if keeps exactly the entries that do not name the removed partner |
| BondGraph.RemoveAtIsRemoveRefs | src/physics/interaction.cpp:153-164 | erasing the one entry that names a partner is the same as removing every entry naming it |
| BondGraph.AddBondPair | src/physics/interaction.cpp:106-111 | appending a mirrored pair of entries between two atoms not yet bonded keeps the graph well formed |
| BondGraph.BreaksMirror | src/physics/interaction.cpp:147-151 | a bond breaks when seen from one atom exactly when it breaks when seen from the other |
| BondGraph.RemoveBondPair | src/physics/interaction.cpp:153-164 | erasing both entries of one bond keeps the graph well formed and leaves only entries that were there |
| BondGraph.IonicBreakBoth | src/physics/interaction.cpp:151-163 | a breaking ionic entry makes both of its atoms lose an ionic bond, since the break rule is the same from both sides |
| BondGraph.SurvivorsWellFormed | src/physics/interaction.cpp:143-169 | keeping only the surviving entries, on every atom, keeps the graph well formed |
| Interaction.SpringMagnitude | src/physics/interaction.cpp:31-37 | the spring term is zero at the rest length, pulls back when stretched and pushes apart when compressed |
| Interaction.BondSpringForce | src/physics/interaction.cpp:31-37 | the spring force is the zero vector at the rest length |
| Interaction.IsBonded | src/physics/interaction.cpp:56-65 | the scan reports a bond exactly when the list has an entry for the partner |
| Interaction.ForceSumOfZeros | src/physics/interaction.cpp:44-45 | a population whose forces were all reset has zero total force |
| Interaction.InteractionEngine.constructor | src/physics/interaction.h:18-22 | the engine starts with coulombK 14.4, ljEpsilon 0.01, bondingRange 5, ionicThreshold 1.7 and 300 K |
| Interaction.InteractionEngine.CoulombMagnitude | src/physics/interaction.cpp:23-29 | zero between two neutral atoms, repulsive for like charges, attractive for opposite ones |
| Interaction.InteractionEngine.CoulombForce | src/physics/interaction.cpp:23-29 | the Coulomb force between two neutral atoms is the zero vector |
| Interaction.InteractionEngine.ResetForces | src/physics/interaction.cpp:44-45 | every force becomes zero and nothing else changes |
| Interaction.LJBracket | src/physics/interaction.cpp:18-19 | the bracket 2 (s/d)^12 - (s/d)^6 is 0 for a zero ratio, positive for a ratio above 1 and negative for a ratio of at most 1/2 |
| Interaction.InteractionEngine.LJMagnitude | src/physics/interaction.cpp:14-21 | zero for zero van der Waals radii; with a positive epsilon, repulsive when the clamped distance is below sigma and attractive from twice sigma on |
| Interaction.InteractionEngine.LJForce | src/physics/interaction.cpp:14-21 | the force is zero for zero radii, points along dir inside sigma and against dir from twice sigma on |
| Interaction.InteractionEngine.PairForceClose | src/physics/interaction.cpp:50-52 | a pair closer than 0.01 contributes no force |
| Interaction.InteractionEngine.PairForceParts | src/physics/interaction.cpp:50-72 | at distance >= 0.01 the pair force is Coulomb plus Lennard-Jones, with the spring at the covalent-radius rest length added exactly when atom i lists j; for two neutral unbonded atoms it is the Lennard-Jones force alone |
| Interaction.InteractionEngine.PairForceOf | src/physics/interaction.cpp:50-72 | the pair body's force, at distance >= 0.01, has no spring term when atom i does not list j, and is the Lennard-Jones force alone for two neutral unbonded atoms |
| Interaction.InteractionEngine.ApplyPair | src/physics/interaction.cpp:74-75 | atom i gets +f and atom j gets -f, so the population's total force is unchanged |
| Interaction.InteractionEngine.ForceSumPair | src/physics/interaction.cpp:74-75 | adding f to one atom and subtracting it from another keeps the total force |
| Interaction.InteractionEngine.PairStep | src/physics/interaction.cpp:49-76 | one inner iteration accumulates pair (i, j) and keeps the total force at zero |
| Interaction.InteractionEngine.AccumulateRow | src/physics/interaction.cpp:48-77 | one row of the pair loop accumulates every pair (i, j) with j > i and keeps the total force at zero |
| Interaction.InteractionEngine.ComputeForces | src/physics/interaction.cpp:43-78 | every atom ends with its net pair force and nothing else changes; the forces of the whole population sum to zero |
| Interaction.InteractionEngine.ShouldBreakBond | src/physics/interaction.cpp:135-138 | a bond breaks thermally exactly when its strength is below 2 kB T |
| Interaction.InteractionEngine.Rule | src/physics/interaction.cpp:147-151 | the break rule uses the stretch limit 1.5 bonding ranges and the thermal test of shouldBreakBond |
| Interaction.InteractionEngine.BreakPair | src/physics/interaction.cpp:151-164 | a breaking entry leaves atom i's list at its position and every entry naming i leaves the partner's list; other atoms are untouched; for an ionic bond with atom i positive and an electron at the partner, the partner's last electron moves to i and both charges shift by one, otherwise no electron or charge changes; totals are kept and only atoms that lose an ionic bond change electrons |
| Interaction.InteractionEngine.BreakEntry | src/physics/interaction.cpp:146-167 | one iteration of the iterator loop erases a breaking entry or steps past a surviving one, and moves the cursor forward |
| Interaction.InteractionEngine.BreakRow | src/physics/interaction.cpp:144-168 | the iterator loop over atom i's list leaves atoms 0..i with exactly their surviving entries, keeping totals and the electrons of atoms that lose no ionic bond |
| Interaction.InteractionEngine.BreakPhase | src/physics/interaction.cpp:143-169 | each list becomes exactly its surviving entries in order; the graph stays well formed; totals and charge balance are kept; positions and elements are untouched; an atom that loses no ionic bond keeps its electrons and charge (only ionic breaks hand electrons back) |
| Interaction.InteractionEngine.TryCovalentBond | src/physics/interaction.cpp:116-133 | succeeds exactly when both atoms have available valence; on failure nothing changes; on success each atom gets one mirrored covalent entry of order min(availA, availB, 3) in [1, 3] and strength 2 per order, and nothing else changes |
| Interaction.InteractionEngine.CovalentUsesValence | src/physics/interaction.cpp:116-133 | a covalent bond uses up its order of each atom's available valence |
| Interaction.InteractionEngine.TryIonicBond | src/physics/interaction.cpp:84-114 | the less electronegative atom donates; the attempt succeeds exactly when the donor wants to lose, the acceptor wants to gain, the transfer is not endothermic and the donor has an electron; on failure nothing changes; on success the donor's last electron moves to the acceptor, their charges shift by one, and both get a mirrored ionic entry of strength -deltaE >= 0 |
| Interaction.GuardIgnoresElectrons | src/physics/interaction.cpp:84-99 | the checks before the transfer depend on element data and distance only, not on electrons or charge |
| Interaction.EmptyDonorPassesGuard | src/physics/interaction.cpp:91-102 | a lithium donor without electrons, one angstrom from a neutral fluorine atom with its nine electrons, passes every check the source makes before it pops the donor's list |
| Interaction.InteractionEngine.PairFormed | src/physics/interaction.cpp:174-197 | one pair of the form loop: changes only atoms i and j, only adds entries, and when it changes anything the pair was unbonded and gets one mirrored entry on each side |
| Interaction.InteractionEngine.Swept | src/physics/interaction.cpp:172-199 | the form loop up to pair (i, j): positions and elements are untouched |
| Interaction.InteractionEngine.FormPair | src/physics/interaction.cpp:174-197 | the body of the pair loop computes PairFormed: skip when out of range, bonded, noble gas or without electronegativity data, else the attempt |
| Interaction.InteractionEngine.FormAttempt | src/physics/interaction.cpp:191-197 | the ionic attempt when the electronegativity difference exceeds the threshold, else the covalent one, as PairFormed says |
| Interaction.InteractionEngine.FormNext | src/physics/interaction.cpp:173-198 | pair (i, j) applied to the population reached so far gives the sweep one pair further |
| Interaction.InteractionEngine.FormRow | src/physics/interaction.cpp:173-198 | the inner loop over j takes the sweep from the start of row i to the start of row i + 1 |
| Interaction.InteractionEngine.PairFormedInv | src/physics/interaction.cpp:174-197 | one pair keeps the form invariant: same atoms, accounts, well-formed graph, old lists extended by formable entries only |
| Interaction.InteractionEngine.SweptInv | src/physics/interaction.cpp:172-199 | the form invariant holds at every point of the sweep |
| Interaction.InteractionEngine.SweptGrows | src/physics/interaction.cpp:172-199 | later in the sweep every atom keeps its element and has only gained entries |
| Interaction.InteractionEngine.CovalentAt | src/physics/interaction.cpp:193-197 | right after the covalent attempt on an eligible pair, the pair is bonded or one atom has no valence left |
| Interaction.InteractionEngine.CovalentComplete | src/physics/interaction.cpp:172-199 | at the end of the sweep an eligible covalent pair in range is bonded or one of its atoms has no valence left |
| Interaction.InteractionEngine.SweptSaturated | src/physics/interaction.cpp:172-199 | no covalent pair in range is left unbonded while both atoms have valence |
| Interaction.InteractionEngine.IonicAt | src/physics/interaction.cpp:84-114 | right after the ionic attempt on a pair whose checks pass, the pair is bonded unless the donor had no electron left |
| Interaction.InteractionEngine.IonicComplete | src/physics/interaction.cpp:172-199 | at the end of the sweep such an ionic pair is bonded unless its donor had run out of electrons when it was reached |
| Interaction.InteractionEngine.FormPhase | src/physics/interaction.cpp:171-199 | the loops compute the whole sweep; every list extends its old one by formable entries only (in range, not noble gas, with electronegativity data, ionic exactly when the difference exceeds the threshold); the graph stays well formed; totals and charge balance are kept; afterwards every covalent pair in range is bonded or has an atom without valence, and every ionic pair in range whose checks pass is bonded unless its donor had run out of electrons |
| Interaction.FormableMirror | src/physics/interaction.cpp:172-199 | an entry the form phase may create on one atom is, mirrored, one it may create on the partner |
| Interaction.InteractionEngine.UpdateBonds | src/physics/interaction.cpp:140-200 | the result is the form sweep over the break phase's outcome; only charges, electrons, caches and lists change; every list is its survivors followed by formable entries; the graph stays well formed; no electron or unit of charge is created or lost; no covalent pair in range is left unbonded while both atoms have valence |
| Molecules.MoleculeTracker.constructor | src/physics/molecule.h:20-29 | a new tracker holds no molecules |
| Molecules.MoleculeTracker.Update | src/physics/molecule.cpp:9-63 | the list is rebuilt from the first atomCount atoms alone, so a rebuild over an unchanged graph gives the same list |
| Molecules.MoleculeTracker.Search | src/physics/molecule.cpp:19-37 | the queue loop computes the breadth-first search from the root |
| Molecules.ScanFacts | src/physics/molecule.cpp:30-36 | one bond-list scan queues only unvisited in-range partners, each once, marks exactly those, and leaves every in-range partner visited |
| Molecules.DrainFacts | src/physics/molecule.cpp:26-37 | the search ends with a molecule of unvisited atoms and marks exactly its atoms; every atom its atoms name is marked |
| Molecules.MoleculeTracker.Measure | src/physics/molecule.cpp:39-59 | computes the molecule's id, members, total mass, centre of mass, bond energy from upper entries, and formula |
| Molecules.CenterOfMassBalances | src/physics/molecule.cpp:44-49 | with a positive mass, the centre of mass times the mass gives back the members' mass-weighted positions |
| Molecules.SumsRemoveAt | src/physics/molecule.cpp:52-56 | erasing one entry takes its strength out of the total, and out of the upper-entry sum only when it names a larger index |
| Molecules.BondCountedOnce | src/physics/molecule.cpp:51-57 | over distinct members closed under bonds in a well-formed population, twice the bond energy is the strength of all the members' entries: each bond is counted once |
| Molecules.MoleculeBondEnergy | src/physics/molecule.cpp:39-60 | for every molecule the tracker builds over a well-formed population, twice its bond energy is the strength of all its atoms' entries |
| Molecules.MoleculesPartition | src/physics/molecule.cpp:9-63 | no molecules for atomCount 0; ids are consecutive from 0; each molecule is a non-empty list of distinct atoms, each reached from an earlier one, with its measured properties; every atom lies in exactly one molecule; each molecule starts at the smallest atom not yet placed; no bond leads to a later molecule |
| Molecules.WellFormedUndirected | src/physics/interaction.cpp:106-130 | the bond graph the engine keeps records every bond on both atoms |
| Molecules.BondedSameMolecule | src/physics/molecule.cpp:30-36 | an in-range bond puts both of its atoms in the same molecule |
| Molecules.SymbolsOf | src/physics/molecule.cpp:72-73 | the members' element symbols, in member order |
| Molecules.MoleculeTracker.ComputeFormula | src/physics/molecule.cpp:65-93 | the loop writes the formula of the members' symbols (FormulaOf) |
| Molecules.MoleculeTracker.Append | src/physics/molecule.cpp:77-84 | writes sym's term when the map holds sym and erases it from the map |
| Molecules.HillOrder | src/physics/molecule.cpp:85-91 | writing carbon's term, then hydrogen's from what is left, then the rest writes the map in formula order |
| Molecules.FormulaAssembled | src/physics/molecule.cpp:71-92 | the pieces written for a molecule of several atoms form its formula |
| Formulas.StrLessIrreflexive | src/physics/molecule.cpp:71 | the std::string order never puts a key before itself |
| Formulas.StrLessTrans | src/physics/molecule.cpp:71 | the std::string order is transitive |
| Formulas.StrLessTotal | src/physics/molecule.cpp:71 | any two different keys are ordered one way or the other |
| Formulas.BumpCount | src/physics/molecule.cpp:73 | counts[s]++ adds one to s's count and changes no other count |
| Formulas.BumpAscending | src/physics/molecule.cpp:73 | counts[s]++ keeps the map's keys in ascending order |
| Formulas.TallyCounts | src/physics/molecule.cpp:71-73 | the tally is ascending, holds each symbol with its number of occurrences, and holds no other key |
| Formulas.WithoutAscending | src/physics/molecule.cpp:82 | erasing a key keeps the map ascending |
| Formulas.ParseNatToString | src/physics/molecule.cpp:81 | the digits written for a count read back as that count |
| Formulas.OrderEntries | src/physics/molecule.cpp:85-91 | writing carbon, hydrogen and then the rest writes each entry of the map and only those |
| Formulas.FormulaOrder | src/physics/molecule.cpp:65-93 | each distinct symbol is written exactly once with its count; carbon comes first when present; hydrogen comes next when present, or first when there is no carbon; the other symbols follow in ascending order |
| Quantum.ComputeZeff | src/physics/quantum.cpp:17-57 | the loop computes Z minus the shielding of every listed electron but the target, floored at 1, so the result is always >= 1 |
| Quantum.GroupLayout | src/physics/quantum.cpp:21-24 | s and p orbitals share group n*10, and a d or f subshell gets its own group n*10+l between its shell's group and the next shell's |
| Quantum.ShieldRules | src/physics/quantum.cpp:29-51 | each contribution: 0 above the target's group; 0.30 (first shell) or 0.35 in the same group; for a d/f target 1.00 below; for an s/p target 0.85 from the shell just beneath and 1.00 from deeper ones |
| Quantum.SigmaAppend | src/physics/quantum.cpp:29-51 | one more listed electron adds exactly its contribution to the sum |
| Quantum.SigmaConcat | src/physics/quantum.cpp:29-51 | the sum over two lists one after the other is the sum of their sums |
| Quantum.ZeffReorder | src/physics/quantum.cpp:29-56 | reordering the orbital list does not change the effective charge |
| Quantum.HigherGroupIgnored | src/physics/quantum.cpp:29-51 | an electron of a higher group changes neither the sum nor the result |
| Quantum.LowerGroupShields | src/physics/quantum.cpp:34-48 | a lower-group electron raises the sum by at least 0.85 and never raises the result |
| Quantum.LoneElectron | src/physics/quantum.cpp:31-33 | with only the target listed, its own contribution is taken back and the result is max(Z, 1) |
| Quantum.StopIndices | src/physics/quantum.cpp:195-209 | after the clamp to [0, 1], 0 <= i <= j <= 5, j is i + 1 except at the top stop, and the weight is the fractional part in [0, 1) |
| Quantum.ChannelsInRange | src/physics/quantum.cpp:198-205 | every stop is opaque with channels in [0, 1] |
| Quantum.BlendInRange | src/physics/quantum.cpp:210 | a blend of two channels in [0, 1] stays in [0, 1] |
| Quantum.HeatmapColor | src/physics/quantum.cpp:194-211 | the colour is opaque with channels in [0, 1]; values <= 0 give black and values >= 1 give white |
| Quantum.HeatmapAtStop | src/physics/quantum.cpp:197-210 | the value k/5 gives stop k exactly |
| Simulations.BoundaryRule | src/physics/simulation.cpp:112-124 | per axis: past +hw the coordinate becomes hw, past -hw it becomes -hw, and in both cases the velocity component becomes -0.5 times its old value; an axis inside the box is untouched; nothing else of the atom changes |
| Simulations.BoundaryInBox | src/physics/simulation.cpp:112-124 | afterwards every coordinate lies in [-hw, hw] |
| Simulations.BoundaryInside | src/physics/simulation.cpp:112-124 | an atom already inside the box is left as it is |
| Simulations.Simulation.ApplyBoundary | src/physics/simulation.cpp:112-124 | the axis loop computes the three-axis reflection, which puts the atom in the box |
| Simulations.Kicked | src/physics/simulation.cpp:64-69 | a half-kick changes only the velocity, and skips atoms of mass <= 0 |
| Simulations.KickImpulse | src/physics/simulation.cpp:64-69 | for a positive mass the momentum changes by exactly (dt/2) F |
| Simulations.HalfKick | src/physics/simulation.cpp:82-87 | the kick loop half-kicks every atom |
| Simulations.DriftedFacts | src/physics/simulation.cpp:72-75 | a drift changes only position and velocity, and leaves the atom in the box |
| Simulations.Simulation.Drift | src/physics/simulation.cpp:72-75 | the drift loop moves every atom by dt times its velocity and reflects it at the walls |
| Simulations.Simulation.TotalKineticEnergy | src/physics/simulation.cpp:39-42 | the loop sums m v.v / 2 over the atoms |
| Simulations.KineticEnergyNonNegative | src/physics/simulation.cpp:39-42 | without negative masses the kinetic energy is not negative |
| Simulations.CurrentTemperature | src/physics/simulation.cpp:43-45 | the instantaneous temperature is floored at 1 K |
| Simulations.Factor | src/physics/simulation.cpp:47-51 | the scale factor, the clamped root of the relaxation term, lies in [0.9, 1.1] whenever that root is a real number (see Left out) |
| Simulations.RelaxationNonNegative | src/physics/simulation.cpp:47 | the quantity under the root is non-negative whenever dt <= tau and the target is non-negative, so the main loop's 1 fs step with step's tau = 100 always has a real root |
| Simulations.Simulation.BerendsenThermostat | src/physics/simulation.cpp:35-56 | no change for no atoms or a target below 1 K; otherwise every velocity is scaled by the same clamped factor |
| Simulations.ThermostatAtTarget | src/physics/simulation.cpp:47-55 | at the target temperature the velocities are left as they are |
| Simulations.ScaleAllEnergy | src/physics/simulation.cpp:53-55 | scaling every velocity by lambda scales the kinetic energy by lambda squared |
| Simulations.SameBondData | src/physics/simulation.cpp:61-91 | moving, kicking and re-forcing atoms keeps element data, the bond graph and the totals |
| Simulations.Simulation.constructor | src/physics/simulation.h:36-38 | a new simulation has no atoms, a 50 half-width box, time 0, step 0 and no molecules |
| Simulations.Simulation.Joined | src/physics/simulation.cpp:8-24 | the initialised atom is appended and the bonds updated: the result is updateBonds' outcome on the grown vector; its last atom has the requested element and position; totals grow by the new atom's |
| Simulations.Simulation.Grow | src/physics/simulation.cpp:20-23 | the atom vector becomes the bond update of the old vector plus the new atom, and nothing else changes |
| Simulations.Simulation.SpawnAtom | src/physics/simulation.cpp:8-25 | the population grows by exactly one, with the requested element and position last; the atoms are updateBonds' outcome on the grown vector; the molecules are rebuilt from them |
| Simulations.Simulation.Clear | src/physics/simulation.cpp:27-33 | no atoms, an empty reaction log, time and counter 0, and no molecules |
| Simulations.Simulation.Advance | src/physics/simulation.cpp:61-91 | kick, drift, forces, kick and thermostat compute the integrated population; only positions, velocities and forces change, and every atom is in the box |
| Simulations.Simulation.Integrate | src/physics/simulation.cpp:61-91 | the integration writes the integrated population back and hands the engine the current time; the graph and totals are kept |
| Simulations.Simulation.Rebond | src/physics/simulation.cpp:99 | the atom vector becomes updateBonds' outcome and nothing else changes |
| Simulations.Simulation.BondPhase | src/physics/simulation.cpp:97-106 | the atoms become updateBonds' outcome; on step 0 the molecules are rebuilt, on any other step the molecule list is unchanged; totals are kept |
| Simulations.Simulation.Tick | src/physics/simulation.cpp:108-109 | the clock advances by dt and the counter by one; nothing else changes |
| Simulations.Simulation.Finish | src/physics/simulation.cpp:97-109 | the bond update (updateBonds' outcome) happens exactly when the counter is a multiple of 10; the molecule list changes only on step 0; the clock advances by dt and the counter by one |
| Simulations.Simulation.StepPopulated | src/physics/simulation.cpp:61-109 | a step on a non-empty population: integration, then on every tenth step updateBonds' outcome on the integrated atoms, then the counters; the molecule list changes only on step 0 |
| Simulations.Simulation.Step | src/physics/simulation.cpp:58-110 | an empty population is left entirely unchanged; otherwise the counter rises by one and the clock by dt; off bond steps the atoms are the integrated population, on bond steps updateBonds' outcome on it; molecules are rebuilt on step 0 and unchanged on every later step; totals are kept and every atom is in the box |

## Left out

- Floating point. Positions, energies and forces are `real`. `float` rounding, and the IEEE infinities the source gets from dividing by a zero distance, are not modelled.
- The distance `glm::length` is a parameter `length`, assumed symmetric. The thermostat's `std::sqrt` is a parameter `sqrt`. `std::pow(x, 6.0f)` in the Lennard-Jones term is `Pow(x, 6)`, a product of six factors.
- spawnAtom's Maxwell-Boltzmann velocity comes from a random-number generator and `std::sqrt`. The model takes the velocity as an input, so the distribution is not modelled.
- Atom mutators (init, removeOuterElectron, addElectron) are functions returning the updated record. Atoms live by value in the atom vector, so there is no aliasing to lose.
- The engine and tracker methods take the atom vector as a `seq` and return the new one. The kick, drift, force and thermostat loops of step are value methods on that vector; Simulation writes the result back to its `atoms` field.
- Simulations.Simulation.SpawnAtom: requires every pair of the grown vector that would go to the ionic attempt (electronegativity difference above the threshold) to be at a non-zero distance. Otherwise the ionic check's `coulombK / dist` divides by zero. Pairs that go to the covalent attempt, or are skipped, may coincide.
- Simulations.Simulation.Step: requires the same of the drifted positions on a bond step. This is the same division by zero, one step later.
- Interaction.InteractionEngine.FormPair: requires the same of the population it works on, for the same division; UpdateBonds, FormPhase and the sweep functions carry it too.
- Interaction.InteractionEngine.UpdateBonds: requires every atom to have element data, because the source dereferences the element record without a null check. It also requires partners in range, at most one entry per partner, and mirrored entries. The source indexes partners without a bounds check, and every bond it creates has this shape.
- Molecules.MoleculeTracker.Update: requires element data on the counted atoms, because computeFormula reads their symbols.
- Interaction.InteractionEngine.BreakPair: hands the electron back only when the partner still has one. The source pops unconditionally, which is undefined for an empty list.
- Interaction.InteractionEngine.TryIonicBond: also checks that the donor has an electron to give (see Findings).
- Interaction.InteractionEngine.TryCovalentBond: does not refresh the cached valence after the bond, as in the source. Only the ionic path refreshes it, through the electron moves.
- Simulations.Simulation.BerendsenThermostat: requires tau != 0. step always passes 100.
- Simulations.Factor: the model's `sqrt` always returns a real number. In the source, a negative quantity under the root makes `std::sqrt` return NaN, `std::clamp` passes the NaN through, and every velocity becomes NaN. That needs dt > tau on a population hotter than the target, for example dt = 200 with tau = 100, a target of 300 K and a current 3000 K, which gives -0.8. RelaxationNonNegative shows that this cannot happen for dt <= tau, and the main loop's 1 fs step (src/main.cpp:108) is far below step's tau of 100.
- Simulations.Simulation.BerendsenThermostat: inherits that gap from Factor. The NaN velocities of a negative radicand are not modelled, and neither are the same velocities in step, which calls the thermostat.
- Simulations.Simulation.Step: does not model the int overflow of stepCount; the counter is an unbounded integer.
- The engine's force constants are `const` fields, because nothing in the source assigns them after construction. The temperature remains a mutable field.
- The bond counters and the reaction log are plain fields. Nothing increments the counters or appends to the log, so `step` rebuilds the molecules only on step 0.
- Molecule centre of mass: dividing by the total mass is written as scaling by its inverse.
- The rest of quantum.cpp (radial and angular wave functions, sampling) is transcendental floating point plus random sampling, so it is left out. So are the renderer, ui and main loop, and the JSON loading in element.cpp.

## Findings

| source | as written | input that shows it | evidently intended | confidence | as-written member | corrected member |
|---|---|---|---|---|---|---|
| src/physics/interaction.cpp:91-102 | tryIonicBond checks only the element-based donor and acceptor tests and the energy balance before `removeOuterElectron`, which reads `electrons.back()` | a lithium atom (ionization energy 5.39 eV, one valence electron) that has already given away all of its electrons, one angstrom from a fluorine atom: every check passes and an empty vector is popped | the transfer is attempted only when the donor still has an electron | not executed | Interaction.EmptyDonorPassesGuard | Interaction.InteractionEngine.TryIonicBond |
