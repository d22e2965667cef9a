/** The molecule tracker: a breadth-first search over the bond lists splits
    the first atomCount atoms into connected molecules, each with its total
    mass, centre of mass, bond energy and formula. The search is specified
    by the functions Scan, Drain and Components, which follow the source's
    loops step by step; the tracker's Update is proved to compute them, and
    the partition, ordering and closure properties are proved about them. */
module Molecules {
  import opened Wrappers
  import opened Vectors
  import opened Elements
  import opened Atoms
  import opened BondGraph
  import opened Formulas

  /** A connected cluster of bonded atoms. */
  datatype Molecule = Molecule(
    id: int,
    atomIndices: seq<int>,
    totalBondEnergy: real,   // eV
    formula: string,
    centerOfMass: Vec3,
    totalMass: real)

  /** The first n atoms all have element data (the formula reads their
      symbols). */
  predicate Named(atoms: seq<Atom>, n: int) {
    0 <= n <= |atoms| && forall k | 0 <= k < n :: atoms[k].element.Some?
  }

  /** Every index of idxs names one of the first n atoms. */
  predicate InRange(idxs: seq<int>, n: int) {
    forall t | 0 <= t < |idxs| :: 0 <= idxs[t] < n
  }

  /** Every index of idxs names an atom with element data. */
  predicate Members(atoms: seq<Atom>, idxs: seq<int>) {
    InRange(idxs, |atoms|) && forall t | 0 <= t < |idxs| :: atoms[idxs[t]].element.Some?
  }

  lemma NamedMembers(atoms: seq<Atom>, n: int, idxs: seq<int>)
    requires Named(atoms, n) && InRange(idxs, n)
    ensures Members(atoms, idxs)
  {
  }

  // ---- molecule properties -----------------------------------------------------

  /** Sum of the members' masses. */
  function MassOf(atoms: seq<Atom>, idxs: seq<int>): (r: real)
    requires InRange(idxs, |atoms|)
  {
    if idxs == [] then 0.0
    else MassOf(atoms, idxs[..|idxs| - 1]) + atoms[idxs[|idxs| - 1]].mass
  }

  /** Sum of the members' mass-weighted positions. */
  function MomentOf(atoms: seq<Atom>, idxs: seq<int>): (r: Vec3)
    requires InRange(idxs, |atoms|)
  {
    if idxs == [] then Zero
    else MomentOf(atoms, idxs[..|idxs| - 1]).Add(atoms[idxs[|idxs| - 1]].pos.Scale(atoms[idxs[|idxs| - 1]].mass))
  }

  /** Sum of the strengths of the entries of `bonds` naming a partner with a
      larger index than idx. */
  function UpperEnergy(bonds: seq<Bond>, idx: int): (r: real) {
    if bonds == [] then 0.0
    else
      var b := bonds[|bonds| - 1];
      UpperEnergy(bonds[..|bonds| - 1], idx) + (if b.otherAtomIdx > idx then b.strength else 0.0)
  }

  /** The bond energy of the members: each member's upper entries. */
  function EnergyOf(atoms: seq<Atom>, idxs: seq<int>): (r: real)
    requires InRange(idxs, |atoms|)
  {
    if idxs == [] then 0.0
    else EnergyOf(atoms, idxs[..|idxs| - 1]) + UpperEnergy(atoms[idxs[|idxs| - 1]].bonds, idxs[|idxs| - 1])
  }

  /** The members' element symbols, in member order. */
  function SymbolsOf(atoms: seq<Atom>, idxs: seq<int>): (r: seq<string>)
    requires Members(atoms, idxs)
    ensures |r| == |idxs|
    ensures forall t | 0 <= t < |idxs| :: r[t] == atoms[idxs[t]].element.value.symbol
  {
    if idxs == [] then []
    else SymbolsOf(atoms, idxs[..|idxs| - 1]) + [atoms[idxs[|idxs| - 1]].element.value.symbol]
  }

  /** Molecule number id over the members idxs: the mass is summed, the
      centre of mass is the weighted positions divided by the mass when the
      mass is positive (and the weighted sum itself otherwise), the bond
      energy counts each member's upper entries, and the formula is
      computed from the members' symbols. */
  function MakeMolecule(atoms: seq<Atom>, id: int, idxs: seq<int>): (r: Molecule)
    requires Members(atoms, idxs)
  {
    var mass := MassOf(atoms, idxs);
    var moment := MomentOf(atoms, idxs);
    Molecule(id, idxs, EnergyOf(atoms, idxs), FormulaOf(SymbolsOf(atoms, idxs)),
             if mass > 0.0 then moment.Scale(1.0 / mass) else moment, mass)
  }

  lemma ScaleBack(m: real, x: real)
    requires m != 0.0
    ensures m * ((1.0 / m) * x) == x
  {
    assert m * (1.0 / m) == 1.0;
    assert m * ((1.0 / m) * x) == (m * (1.0 / m)) * x;
  }

  /** With a positive mass the centre of mass, weighted by the mass, gives
      back the members' weighted positions. */
  lemma CenterOfMassBalances(atoms: seq<Atom>, id: int, idxs: seq<int>)
    requires Members(atoms, idxs)
    requires MassOf(atoms, idxs) > 0.0
    ensures var m := MakeMolecule(atoms, id, idxs); m.centerOfMass.Scale(m.totalMass) == MomentOf(atoms, idxs)
  {
    var mass := MassOf(atoms, idxs);
    var moment := MomentOf(atoms, idxs);
    var m := MakeMolecule(atoms, id, idxs);
    assert m.totalMass == mass && m.centerOfMass == moment.Scale(1.0 / mass);
    ScaleBackVec(moment, mass);
  }

  lemma ScaleBackVec(v: Vec3, m: real)
    requires m != 0.0
    ensures v.Scale(1.0 / m).Scale(m) == v
  {
    ScaleBack(m, v.x);
    ScaleBack(m, v.y);
    ScaleBack(m, v.z);
  }

  /** Sum of the strengths of every entry of a bond list. */
  function StrengthSum(bonds: seq<Bond>): (r: real) {
    if bonds == [] then 0.0 else StrengthSum(bonds[..|bonds| - 1]) + bonds[|bonds| - 1].strength
  }

  /** The strengths of all the members' entries: each bond between two
      members is seen from both ends. */
  function AllStrength(atoms: seq<Atom>, idxs: seq<int>): (r: real)
    requires InRange(idxs, |atoms|)
  {
    if idxs == [] then 0.0
    else AllStrength(atoms, idxs[..|idxs| - 1]) + StrengthSum(atoms[idxs[|idxs| - 1]].bonds)
  }

  /** Number of entries in the members' bond lists. */
  function EntryCount(atoms: seq<Atom>, idxs: seq<int>): nat
    requires InRange(idxs, |atoms|)
  {
    if idxs == [] then 0
    else EntryCount(atoms, idxs[..|idxs| - 1]) + |atoms[idxs[|idxs| - 1]].bonds|
  }

  /** Every partner a member names is a member: the members are a union of
      connected molecules. */
  ghost predicate Closed(atoms: seq<Atom>, idxs: seq<int>)
    requires InRange(idxs, |atoms|)
  {
    forall t, b | 0 <= t < |idxs| && b in atoms[idxs[t]].bonds :: b.otherAtomIdx in idxs
  }

  lemma {:induction false} SumsConcat(a: seq<Bond>, b: seq<Bond>, idx: int)
    ensures UpperEnergy(a + b, idx) == UpperEnergy(a, idx) + UpperEnergy(b, idx)
    ensures StrengthSum(a + b) == StrengthSum(a) + StrengthSum(b)
  {
    if b != [] {
      SumsConcat(a, b[..|b| - 1], idx);
      assert (a + b)[..|a + b| - 1] == a + b[..|b| - 1];
    } else {
      assert a + b == a;
    }
  }

  /** Erasing one entry takes its strength out of both sums, and out of the
      upper sum only when it names a larger index. */
  lemma SumsRemoveAt(s: seq<Bond>, p: nat, idx: int)
    requires p < |s|
    ensures UpperEnergy(RemoveAt(s, p), idx) == UpperEnergy(s, idx) - (if s[p].otherAtomIdx > idx then s[p].strength else 0.0)
    ensures StrengthSum(RemoveAt(s, p)) == StrengthSum(s) - s[p].strength
  {
    SumsConcat(s[..p], s[p + 1..], idx);
    SumsConcat(s[..p], [s[p]], idx);
    SumsConcat(s[..p] + [s[p]], s[p + 1..], idx);
    assert s[..p] + [s[p]] + s[p + 1..] == s;
    assert [s[p]][..0] == [];
  }

  /** Replacing one atom changes the member sums by its own terms only. */
  lemma {:induction false} MemberUpdate(atoms: seq<Atom>, idxs: seq<int>, k: int, a: Atom)
    requires InRange(idxs, |atoms|) && Distinct(idxs) && 0 <= k < |atoms|
    ensures EnergyOf(atoms[k := a], idxs) == EnergyOf(atoms, idxs)
      + (if k in idxs then UpperEnergy(a.bonds, k) - UpperEnergy(atoms[k].bonds, k) else 0.0)
    ensures AllStrength(atoms[k := a], idxs) == AllStrength(atoms, idxs)
      + (if k in idxs then StrengthSum(a.bonds) - StrengthSum(atoms[k].bonds) else 0.0)
    ensures EntryCount(atoms[k := a], idxs) == EntryCount(atoms, idxs)
      + (if k in idxs then |a.bonds| - |atoms[k].bonds| else 0)
  {
    if idxs != [] {
      var init, last := idxs[..|idxs| - 1], idxs[|idxs| - 1];
      MemberUpdate(atoms, init, k, a);
      assert idxs == init + [last];
      if last == k {
        assert k !in init by {
          forall t | 0 <= t < |init|
            ensures init[t] != k
          {
            assert idxs[t] != idxs[|idxs| - 1];
          }
        }
      }
    }
  }

  lemma {:induction false} NoEntries(atoms: seq<Atom>, idxs: seq<int>)
    requires InRange(idxs, |atoms|)
    requires forall t | 0 <= t < |idxs| :: atoms[idxs[t]].bonds == []
    ensures EnergyOf(atoms, idxs) == 0.0 && AllStrength(atoms, idxs) == 0.0
  {
    if idxs != [] {
      NoEntries(atoms, idxs[..|idxs| - 1]);
    }
  }

  /** Each bond is counted once in the bond energy: over members that are
      closed under bonds (whole molecules), in a well-formed population, the
      bond energy is half the strength of all the members' entries, each
      bond being recorded on both of its atoms. */
  lemma {:induction false} BondCountedOnce(atoms: seq<Atom>, idxs: seq<int>)
    requires WellFormed(atoms) && InRange(idxs, |atoms|) && Distinct(idxs) && Closed(atoms, idxs)
    ensures 2.0 * EnergyOf(atoms, idxs) == AllStrength(atoms, idxs)
    decreases EntryCount(atoms, idxs)
  {
    if forall t | 0 <= t < |idxs| :: atoms[idxs[t]].bonds == [] {
      NoEntries(atoms, idxs);
    } else {
      var t :| 0 <= t < |idxs| && atoms[idxs[t]].bonds != [];
      var k := idxs[t];
      var p := |atoms[k].bonds| - 1;
      var e := atoms[k].bonds[p];
      var o := e.otherAtomIdx;
      assert HasMirror(atoms, k, p);
      var q :| 0 <= q < |atoms[o].bonds| && atoms[o].bonds[q] == Mirror(e, k);
      var mid := atoms[k := atoms[k].(bonds := RemoveAt(atoms[k].bonds, p))];
      var out := mid[o := atoms[o].(bonds := RemoveAt(atoms[o].bonds, q))];
      RemoveBondPair(atoms, out, k, o, p, q);
      assert k in idxs && o in idxs;
      MemberUpdate(atoms, idxs, k, mid[k]);
      MemberUpdate(mid, idxs, o, out[o]);
      SumsRemoveAt(atoms[k].bonds, p, k);
      SumsRemoveAt(atoms[o].bonds, q, o);
      BondCountedOnce(out, idxs);
    }
  }

  // ---- the breadth-first search --------------------------------------------------

  /** Number of atoms not yet visited. */
  function CountFalse(v: seq<bool>): nat {
    if v == [] then 0 else (if v[0] then 0 else 1) + CountFalse(v[1..])
  }

  lemma {:induction false} CountFalseMark(v: seq<bool>, o: int)
    requires 0 <= o < |v| && !v[o]
    ensures CountFalse(v[o := true]) == CountFalse(v) - 1
  {
    if o == 0 {
      assert v[o := true][1..] == v[1..];
    } else {
      assert v[o := true][1..] == v[1..][o - 1 := true];
      CountFalseMark(v[1..], o - 1);
    }
  }

  /** Each atom of c at most once. */
  predicate Distinct(c: seq<int>) {
    forall t, u | 0 <= t < u < |c| :: c[t] != c[u]
  }

  /** No atom of c is marked in w. */
  predicate Unseen(w: seq<bool>, c: seq<int>)
    requires InRange(c, |w|)
  {
    forall t | 0 <= t < |c| :: !w[c[t]]
  }

  /** The marks of `visited` are those of w together with the atoms of c. */
  predicate Marks(visited: seq<bool>, w: seq<bool>, c: seq<int>)
    requires |visited| == |w|
  {
    forall k | 0 <= k < |w| :: visited[k] <==> w[k] || k in c
  }

  /** Every atom of c but the first is named by an atom before it. */
  ghost predicate Linked(atoms: seq<Atom>, c: seq<int>)
    requires InRange(c, |atoms|)
  {
    forall t | 0 < t < |c| :: exists s | 0 <= s < t :: HasBondTo(atoms[c[s]].bonds, c[t])
  }

  /** Every atom among the first |visited| that an atom of c names is
      marked in visited. */
  ghost predicate Spread(atoms: seq<Atom>, c: seq<int>, visited: seq<bool>)
    requires InRange(c, |atoms|)
  {
    forall t, o | 0 <= t < |c| && 0 <= o < |visited| && HasBondTo(atoms[c[t]].bonds, o) :: visited[o]
  }

  /** A molecule's atom list: non-empty, among the first n atoms, each atom
      once, and every atom but the first named by an atom before it. */
  ghost predicate Cluster(atoms: seq<Atom>, n: int, c: seq<int>)
    requires 0 <= n <= |atoms|
  {
    |c| > 0 && InRange(c, n) && Distinct(c) && Linked(atoms, c)
  }

  /** The scan of one atom's bond list: each entry naming an atom among the
      first n that is not yet visited marks it visited and queues it. */
  function Scan(bonds: seq<Bond>, n: int, visited: seq<bool>, queue: seq<int>): (r: (seq<bool>, seq<int>))
    requires |visited| == n
    ensures |r.0| == n && |queue| <= |r.1| && r.1[..|queue|] == queue
    ensures CountFalse(r.0) + |r.1| == CountFalse(visited) + |queue|
    ensures InRange(r.1[|queue|..], n)
    decreases |bonds|
  {
    if bonds == [] then (visited, queue)
    else
      var o := bonds[0].otherAtomIdx;
      if 0 <= o < n && !visited[o] then
        CountFalseMark(visited, o);
        var r := Scan(bonds[1..], n, visited[o := true], queue + [o]);
        assert r.1[..|queue|] == r.1[..|queue| + 1][..|queue|];
        assert r.1[|queue|..] == [o] + r.1[|queue| + 1..];
        r
      else Scan(bonds[1..], n, visited, queue)
  }

  lemma HasBondToTail(bonds: seq<Bond>, o: int)
    requires bonds != [] && HasBondTo(bonds, o) && bonds[0].otherAtomIdx != o
    ensures HasBondTo(bonds[1..], o)
  {
    var b :| b in bonds && b.otherAtomIdx == o;
    assert bonds == [bonds[0]] + bonds[1..];
  }

  lemma HasBondToCons(bonds: seq<Bond>, o: int)
    requires bonds != [] && (HasBondTo(bonds[1..], o) || bonds[0].otherAtomIdx == o)
    ensures HasBondTo(bonds, o)
  {
    if bonds[0].otherAtomIdx != o {
      var b :| b in bonds[1..] && b.otherAtomIdx == o;
      assert b in bonds;
    } else {
      assert bonds[0] in bonds;
    }
  }

  /** What a scan of bonds from `visited` leaves: the atoms found were
      unvisited, are found once each and are named by the list; `after` marks
      exactly those besides `visited`; and every atom among the first n that
      the list names is marked in `after`. */
  ghost predicate Scanned(bonds: seq<Bond>, n: int, visited: seq<bool>, after: seq<bool>, found: seq<int>)
    requires |visited| == n && |after| == n && InRange(found, n)
  {
    Unseen(visited, found) && Distinct(found)
    && (forall t | 0 <= t < |found| :: HasBondTo(bonds, found[t]))
    && Marks(after, visited, found)
    && (forall o | 0 <= o < n && HasBondTo(bonds, o) :: after[o])
  }

  /** What a scan does: the atoms it queues were unvisited, are queued once
      each and are named by the list; it marks exactly those; and afterwards
      every atom among the first n that the list names is visited. */
  lemma {:induction false} ScanFacts(bonds: seq<Bond>, n: int, visited: seq<bool>, queue: seq<int>)
    requires |visited| == n
    ensures var r := Scan(bonds, n, visited, queue); Scanned(bonds, n, visited, r.0, r.1[|queue|..])
    decreases |bonds|, 1
  {
    var r := Scan(bonds, n, visited, queue);
    var found := r.1[|queue|..];
    if bonds == [] {
      assert found == [];
    } else {
      var o := bonds[0].otherAtomIdx;
      if 0 <= o < n && !visited[o] {
        ScanMarked(bonds, n, visited, queue);
      } else {
        ScanSkipped(bonds, n, visited, queue);
      }
    }
  }

  /** ScanFacts when the first entry queues a new atom. */
  lemma {:induction false} ScanMarked(bonds: seq<Bond>, n: int, visited: seq<bool>, queue: seq<int>)
    requires |visited| == n && bonds != []
    requires 0 <= bonds[0].otherAtomIdx < n && !visited[bonds[0].otherAtomIdx]
    ensures var r := Scan(bonds, n, visited, queue); Scanned(bonds, n, visited, r.0, r.1[|queue|..])
    decreases |bonds|, 0
  {
    var o := bonds[0].otherAtomIdx;
    var v' := visited[o := true];
    var q' := queue + [o];
    var r := Scan(bonds, n, visited, queue);
    assert r == Scan(bonds[1..], n, v', q');
    ScanFacts(bonds[1..], n, v', q');
    DropFront(r.1, queue, o);
    ScannedCons(bonds, n, visited, r.0, r.1[|q'|..]);
  }

  /** A queue extended past queue + [o] continues with o. */
  lemma DropFront(s: seq<int>, queue: seq<int>, o: int)
    requires |queue| + 1 <= |s| && s[..|queue| + 1] == queue + [o]
    ensures s[|queue|..] == [o] + s[|queue| + 1..]
  {
    assert s[|queue|] == s[..|queue| + 1][|queue|];
  }

  /** Scanned, one entry further back, when that entry queued a new atom. */
  lemma ScannedCons(bonds: seq<Bond>, n: int, visited: seq<bool>, after: seq<bool>, rest: seq<int>)
    requires |visited| == n && |after| == n && bonds != []
    requires 0 <= bonds[0].otherAtomIdx < n && !visited[bonds[0].otherAtomIdx]
    requires InRange(rest, n) && Scanned(bonds[1..], n, visited[bonds[0].otherAtomIdx := true], after, rest)
    ensures InRange([bonds[0].otherAtomIdx] + rest, n)
    ensures Scanned(bonds, n, visited, after, [bonds[0].otherAtomIdx] + rest)
  {
    var o := bonds[0].otherAtomIdx;
    var v' := visited[o := true];
    var found := [o] + rest;
    forall t | 0 < t < |found|
      ensures found[t] == rest[t - 1] && found[t] != o
    {
      assert !v'[rest[t - 1]];
    }
    forall t | 0 <= t < |found|
      ensures HasBondTo(bonds, found[t])
    {
      HasBondToCons(bonds, found[t]);
    }
    forall k | 0 <= k < n
      ensures after[k] <==> visited[k] || k in found
    {
      assert k in found <==> k == o || k in rest;
    }
    forall o' | 0 <= o' < n && HasBondTo(bonds, o')
      ensures after[o']
    {
      if o' != o {
        HasBondToTail(bonds, o');
      }
    }
  }

  /** ScanFacts when the first entry queues nothing. */
  lemma {:induction false} ScanSkipped(bonds: seq<Bond>, n: int, visited: seq<bool>, queue: seq<int>)
    requires |visited| == n && bonds != []
    requires !(0 <= bonds[0].otherAtomIdx < n && !visited[bonds[0].otherAtomIdx])
    ensures var r := Scan(bonds, n, visited, queue); Scanned(bonds, n, visited, r.0, r.1[|queue|..])
    decreases |bonds|, 0
  {
    var r := Scan(bonds, n, visited, queue);
    assert r == Scan(bonds[1..], n, visited, queue);
    ScanFacts(bonds[1..], n, visited, queue);
    ScannedSkip(bonds, n, visited, r.0, r.1[|queue|..]);
  }

  /** Scanned, one entry further back, when that entry queued nothing. */
  lemma ScannedSkip(bonds: seq<Bond>, n: int, visited: seq<bool>, after: seq<bool>, found: seq<int>)
    requires |visited| == n && |after| == n && bonds != []
    requires !(0 <= bonds[0].otherAtomIdx < n && !visited[bonds[0].otherAtomIdx])
    requires InRange(found, n) && Scanned(bonds[1..], n, visited, after, found)
    ensures Scanned(bonds, n, visited, after, found)
  {
    var o := bonds[0].otherAtomIdx;
    forall t | 0 <= t < |found|
      ensures HasBondTo(bonds, found[t])
    {
      HasBondToCons(bonds, found[t]);
    }
    forall o' | 0 <= o' < n && HasBondTo(bonds, o')
      ensures after[o']
    {
      if o' != o {
        HasBondToTail(bonds, o');
      }
    }
  }

  /** The search loop: while the queue is not empty, dequeue its front,
      append it to the molecule and scan its bonds. */
  function Drain(atoms: seq<Atom>, n: int, visited: seq<bool>, queue: seq<int>, acc: seq<int>): (r: (seq<bool>, seq<int>))
    requires 0 <= n <= |atoms| && |visited| == n && InRange(queue, n) && InRange(acc, n)
    ensures |r.0| == n && InRange(r.1, n)
    decreases CountFalse(visited), |queue|
  {
    if queue == [] then (visited, acc)
    else
      var s := Scan(atoms[queue[0]].bonds, n, visited, queue[1..]);
      assert s.1 == queue[1..] + s.1[|queue| - 1..];
      Drain(atoms, n, s.0, s.1, acc + [queue[0]])
  }

  /** The state of a search begun among the atoms unseen in w: the atoms
      found so far (acc, then the queue) form a molecule of atoms unseen in
      w; `visited` is w together with them; and every atom named by a
      dequeued atom is visited. */
  ghost predicate Searching(atoms: seq<Atom>, n: int, w: seq<bool>, visited: seq<bool>, queue: seq<int>, acc: seq<int>)
    requires 0 <= n <= |atoms|
  {
    |w| == n && |visited| == n
    && Cluster(atoms, n, acc + queue) && Unseen(w, acc + queue) && Marks(visited, w, acc + queue)
    && InRange(acc, n) && Spread(atoms, acc, visited)
  }

  lemma SplitAt(s: seq<int>, m: int)
    requires 0 <= m <= |s|
    ensures s == s[..m] + s[m..]
  {
  }

  /** Appending atoms found by scanning one atom of a molecule, unvisited
      and distinct, keeps it a molecule of atoms unseen in w. */
  lemma ClusterExtend(atoms: seq<Atom>, n: int, w: seq<bool>, visited: seq<bool>, c: seq<int>, f: seq<int>, p: int)
    requires 0 <= n <= |atoms| && |w| == n && |visited| == n
    requires Cluster(atoms, n, c) && Unseen(w, c) && Marks(visited, w, c)
    requires InRange(f, n) && Unseen(visited, f) && Distinct(f)
    requires 0 <= p < |c| && forall t | 0 <= t < |f| :: HasBondTo(atoms[c[p]].bonds, f[t])
    ensures Cluster(atoms, n, c + f) && Unseen(w, c + f)
  {
    ConcatUnseen(n, w, visited, c, f);
    ConcatDistinct(n, w, visited, c, f);
    ConcatLinked(atoms, n, c, f, p);
  }

  lemma ConcatUnseen(n: int, w: seq<bool>, visited: seq<bool>, c: seq<int>, f: seq<int>)
    requires |w| == n && |visited| == n
    requires InRange(c, n) && Unseen(w, c) && Marks(visited, w, c)
    requires InRange(f, n) && Unseen(visited, f)
    ensures InRange(c + f, n) && Unseen(w, c + f)
  {
    var g := c + f;
    forall t | 0 <= t < |g|
      ensures 0 <= g[t] < n && !w[g[t]]
    {
      if t >= |c| {
        assert g[t] == f[t - |c|];
        assert !visited[f[t - |c|]];
      } else {
        assert g[t] == c[t];
      }
    }
  }

  lemma ConcatDistinct(n: int, w: seq<bool>, visited: seq<bool>, c: seq<int>, f: seq<int>)
    requires |w| == n && |visited| == n
    requires InRange(c, n) && Distinct(c) && Marks(visited, w, c)
    requires InRange(f, n) && Unseen(visited, f) && Distinct(f)
    ensures Distinct(c + f)
  {
    var g := c + f;
    forall t, u | 0 <= t < u < |g|
      ensures g[t] != g[u]
    {
      if u < |c| {
        assert g[t] == c[t] && g[u] == c[u];
      } else if t < |c| {
        assert g[t] == c[t] && g[u] == f[u - |c|];
        assert visited[c[t]];
        assert !visited[f[u - |c|]];
      } else {
        assert g[t] == f[t - |c|] && g[u] == f[u - |c|];
      }
    }
  }

  lemma ConcatLinked(atoms: seq<Atom>, n: int, c: seq<int>, f: seq<int>, p: int)
    requires 0 <= n <= |atoms| && InRange(c, n) && InRange(f, n) && Linked(atoms, c)
    requires 0 <= p < |c| && forall t | 0 <= t < |f| :: HasBondTo(atoms[c[p]].bonds, f[t])
    ensures InRange(c + f, |atoms|) && Linked(atoms, c + f)
  {
    var g := c + f;
    assert InRange(g, n);
    forall t | 0 < t < |g|
      ensures exists s | 0 <= s < t :: HasBondTo(atoms[g[s]].bonds, g[t])
    {
      if t < |c| {
        var s :| 0 <= s < t && HasBondTo(atoms[c[s]].bonds, c[t]);
        assert g[s] == c[s] && g[t] == c[t];
      } else {
        assert g[p] == c[p] && g[t] == f[t - |c|];
      }
    }
  }

  /** One turn of the search loop keeps the search state. */
  lemma SearchStep(atoms: seq<Atom>, n: int, w: seq<bool>, visited: seq<bool>, queue: seq<int>, acc: seq<int>)
    requires 0 <= n <= |atoms| && InRange(queue, n) && queue != []
    requires Searching(atoms, n, w, visited, queue, acc)
    ensures var s := Scan(atoms[queue[0]].bonds, n, visited, queue[1..]);
      InRange(s.1, n) && Searching(atoms, n, w, s.0, s.1, acc + [queue[0]])
      && (acc + [queue[0]] + s.1)[0] == (acc + queue)[0]
  {
    var cur := queue[0];
    var s := Scan(atoms[cur].bonds, n, visited, queue[1..]);
    var found := acc + queue;
    var m := |queue| - 1;
    var f := s.1[m..];
    ScanFacts(atoms[cur].bonds, n, visited, queue[1..]);
    QueueSplit(acc, queue, s.1, n);
    FoundExtend(atoms, n, w, visited, s.0, found, f, |acc|);
    SpreadExtend(atoms, n, visited, s.0, acc, cur, f);
  }

  /** The queue after a scan is the old queue's tail followed by what the
      scan found. */
  lemma QueueSplit(acc: seq<int>, queue: seq<int>, s: seq<int>, n: int)
    requires queue != [] && |queue| - 1 <= |s| && s[..|queue| - 1] == queue[1..]
    requires InRange(queue, n) && InRange(s[|queue| - 1..], n)
    ensures acc + [queue[0]] + s == (acc + queue) + s[|queue| - 1..]
    ensures (acc + queue)[|acc|] == queue[0] && ((acc + queue) + s[|queue| - 1..])[0] == (acc + queue)[0]
    ensures InRange(s, n)
  {
    var f := s[|queue| - 1..];
    assert s == queue[1..] + f;
    assert acc + [queue[0]] + queue[1..] == acc + queue;
    forall t | 0 <= t < |s|
      ensures 0 <= s[t] < n
    {
      if t >= |queue| - 1 {
        assert s[t] == f[t - (|queue| - 1)];
      }
    }
  }

  /** The atoms a scan of one found atom finds extend the found molecule,
      and the marks after the scan are w together with all of them. */
  lemma FoundExtend(atoms: seq<Atom>, n: int, w: seq<bool>, visited: seq<bool>, after: seq<bool>, found: seq<int>, f: seq<int>, p: int)
    requires 0 <= n <= |atoms| && |w| == n && |visited| == n && |after| == n
    requires Cluster(atoms, n, found) && Unseen(w, found) && Marks(visited, w, found)
    requires 0 <= p < |found| && InRange(f, n) && Scanned(atoms[found[p]].bonds, n, visited, after, f)
    ensures Cluster(atoms, n, found + f) && Unseen(w, found + f) && Marks(after, w, found + f)
  {
    ClusterExtend(atoms, n, w, visited, found, f, p);
    forall k | 0 <= k < n
      ensures after[k] <==> w[k] || k in found + f
    {
      assert k in found + f <==> k in found || k in f;
    }
  }

  /** After scanning cur, every atom named by acc or by cur is marked. */
  lemma SpreadExtend(atoms: seq<Atom>, n: int, visited: seq<bool>, after: seq<bool>, acc: seq<int>, cur: int, f: seq<int>)
    requires 0 <= n <= |atoms| && |visited| == n && |after| == n && InRange(acc, n) && 0 <= cur < n
    requires Spread(atoms, acc, visited) && InRange(f, n)
    requires Scanned(atoms[cur].bonds, n, visited, after, f)
    ensures InRange(acc + [cur], n) && Spread(atoms, acc + [cur], after)
  {
    var acc' := acc + [cur];
    forall t, o | 0 <= t < |acc'| && 0 <= o < n && HasBondTo(atoms[acc'[t]].bonds, o)
      ensures after[o]
    {
      if t < |acc| {
        assert acc'[t] == acc[t];
        assert visited[o];
      }
    }
  }

  /** The search loop ends with the whole molecule found. */
  lemma {:induction false} DrainFacts(atoms: seq<Atom>, n: int, w: seq<bool>, visited: seq<bool>, queue: seq<int>, acc: seq<int>)
    requires 0 <= n <= |atoms| && InRange(queue, n) && InRange(acc, n)
    requires Searching(atoms, n, w, visited, queue, acc)
    ensures var d := Drain(atoms, n, visited, queue, acc);
      Searching(atoms, n, w, d.0, [], d.1) && d.1[0] == (acc + queue)[0]
    decreases CountFalse(visited), |queue|
  {
    if queue != [] {
      var s := Scan(atoms[queue[0]].bonds, n, visited, queue[1..]);
      SearchStep(atoms, n, w, visited, queue, acc);
      DrainFacts(atoms, n, w, s.0, s.1, acc + [queue[0]]);
    } else {
      assert acc + queue == acc;
    }
  }

  /** The outer loop: every atom from i on that is still unvisited starts a
      new molecule, numbered from molId. */
  function Components(atoms: seq<Atom>, n: int, i: int, visited: seq<bool>, molId: int): seq<Molecule>
    requires Named(atoms, n) && |visited| == n && 0 <= i <= n
    decreases n - i
  {
    if i == n then []
    else if visited[i] then Components(atoms, n, i + 1, visited, molId)
    else
      var d := Drain(atoms, n, visited[i := true], [i], []);
      NamedMembers(atoms, n, d.1);
      [MakeMolecule(atoms, molId, d.1)] + Components(atoms, n, i + 1, d.0, molId + 1)
  }

  /** The molecules of the first n atoms. */
  function Molecules(atoms: seq<Atom>, n: int): seq<Molecule>
    requires Named(atoms, n)
  {
    if n == 0 then [] else Components(atoms, n, 0, seq(n, _ => false), 0)
  }

  /** The first molecule holding atom k, |ms| when none does. */
  function Owner(ms: seq<Molecule>, k: int): (r: nat)
    ensures r <= |ms|
    ensures r < |ms| ==> k in ms[r].atomIndices
  {
    if ms == [] then 0
    else if k in ms[0].atomIndices then 0
    else 1 + Owner(ms[1..], k)
  }

  /** ms is the molecule with atoms c in front of rest. */
  ghost predicate Prepended(ms: seq<Molecule>, c: seq<int>, rest: seq<Molecule>) {
    |ms| == |rest| + 1 && ms[0].atomIndices == c && (forall m | 0 < m < |ms| :: ms[m] == rest[m - 1])
    && forall k :: Owner(ms, k) == if k in c then 0 else 1 + Owner(rest, k)
  }

  lemma PrependedCons(mol: Molecule, rest: seq<Molecule>)
    ensures Prepended([mol] + rest, mol.atomIndices, rest)
  {
    forall k
      ensures Owner([mol] + rest, k) == if k in mol.atomIndices then 0 else 1 + Owner(rest, k)
    {
      OwnerCons(mol, rest, k);
    }
  }

  lemma OwnerCons(mol: Molecule, rest: seq<Molecule>, k: int)
    ensures Owner([mol] + rest, k) == if k in mol.atomIndices then 0 else 1 + Owner(rest, k)
  {
    assert ([mol] + rest)[1..] == rest;
  }

  /** The search from an unvisited atom i finds a molecule of unvisited
      atoms starting at i, marks exactly its atoms, and leaves every atom
      its atoms name visited. */
  lemma ComponentStart(atoms: seq<Atom>, n: int, i: int, visited: seq<bool>, after: seq<bool>, found: seq<int>)
    requires Named(atoms, n) && |visited| == n && 0 <= i < n && !visited[i]
    requires after == Drain(atoms, n, visited[i := true], [i], []).0
    requires found == Drain(atoms, n, visited[i := true], [i], []).1
    ensures Cluster(atoms, n, found) && Unseen(visited, found) && found[0] == i
    ensures Marks(after, visited, found) && Spread(atoms, found, after)
  {
    assert [] + [i] == [i];
    assert Searching(atoms, n, visited, visited[i := true], [i], []);
    DrainFacts(atoms, n, visited, visited[i := true], [i], []);
    assert found + [] == found;
  }

  /** Molecule m of ms is numbered molId + m, is a molecule of atoms unseen
      in w, and carries the properties of its atoms. */
  ghost predicate Numbered(atoms: seq<Atom>, n: int, w: seq<bool>, molId: int, ms: seq<Molecule>)
    requires Named(atoms, n) && |w| == n
  {
    forall m | 0 <= m < |ms| ::
      ms[m].id == molId + m && Cluster(atoms, n, ms[m].atomIndices) && Unseen(w, ms[m].atomIndices)
      && ms[m] == MakeMolecule(atoms, molId + m, ms[m].atomIndices)
  }

  /** Every atom of a molecule of ms has that molecule as its first. */
  predicate Disjoint(ms: seq<Molecule>) {
    forall m, k | 0 <= m < |ms| && k in ms[m].atomIndices :: Owner(ms, k) == m
  }

  /** Every atom unseen in w lies in a molecule of ms. */
  predicate Covers(ms: seq<Molecule>, w: seq<bool>) {
    forall k | 0 <= k < |w| && !w[k] :: Owner(ms, k) < |ms|
  }

  /** Every atom below the first atom of a molecule is seen in w or lies in
      an earlier molecule. */
  predicate FirstSmallest(ms: seq<Molecule>, w: seq<bool>) {
    forall m, k | 0 <= m < |ms| && |ms[m].atomIndices| > 0 && 0 <= k < ms[m].atomIndices[0] && k < |w| ::
      w[k] || Owner(ms, k) < m
  }

  /** No bond leads from an atom of a molecule to an atom unseen in w that
      lies in a later molecule. */
  ghost predicate NoForward(atoms: seq<Atom>, ms: seq<Molecule>, w: seq<bool>) {
    forall m, a, o | 0 <= m < |ms| && a in ms[m].atomIndices && 0 <= a < |atoms| && 0 <= o < |w|
                     && HasBondTo(atoms[a].bonds, o) ::
      w[o] || Owner(ms, o) <= m
  }

  /** What the outer loop builds among the atoms unseen in w. */
  ghost predicate Built(atoms: seq<Atom>, n: int, w: seq<bool>, molId: int, ms: seq<Molecule>)
    requires Named(atoms, n) && |w| == n
  {
    Numbered(atoms, n, w, molId, ms) && Disjoint(ms) && Covers(ms, w) && FirstSmallest(ms, w)
    && NoForward(atoms, ms, w)
  }

  /** The molecules the outer loop builds from position i on, when the
      atoms before i are visited, are numbered from molId, are molecules of
      unvisited atoms carrying their properties, hold each atom at most once
      and every unvisited atom once, each start at the smallest atom not yet
      placed, and no bond leads from one of them to a later one. */
  lemma {:induction false} ComponentsFacts(atoms: seq<Atom>, n: int, i: int, visited: seq<bool>, molId: int)
    requires Named(atoms, n) && |visited| == n && 0 <= i <= n
    requires forall k | 0 <= k < i :: visited[k]
    ensures Built(atoms, n, visited, molId, Components(atoms, n, i, visited, molId))
    decreases n - i
  {
    if i == n {
      assert Components(atoms, n, i, visited, molId) == [];
    } else if visited[i] {
      ComponentsFacts(atoms, n, i + 1, visited, molId);
    } else {
      var d := Drain(atoms, n, visited[i := true], [i], []);
      StartVisits(atoms, n, i, visited, d.0, d.1);
      ComponentsFacts(atoms, n, i + 1, d.0, molId + 1);
      var rest := Components(atoms, n, i + 1, d.0, molId + 1);
      ComponentsStep(atoms, n, i, visited, molId, d.0, d.1, rest);
      ComponentsCons(atoms, n, i, visited, molId, d.0, d.1, rest);
    }
  }

  /** From an unvisited atom the outer loop emits the molecule found by the
      search from it, then continues with the search's marks. */
  lemma ComponentsCons(atoms: seq<Atom>, n: int, i: int, w: seq<bool>, molId: int, v: seq<bool>, c: seq<int>, rest: seq<Molecule>)
    requires Named(atoms, n) && |w| == n && 0 <= i < n && !w[i]
    requires v == Drain(atoms, n, w[i := true], [i], []).0
    requires c == Drain(atoms, n, w[i := true], [i], []).1
    requires rest == Components(atoms, n, i + 1, v, molId + 1)
    ensures Members(atoms, c) && Components(atoms, n, i, w, molId) == [MakeMolecule(atoms, molId, c)] + rest
  {
    NamedMembers(atoms, n, c);
  }

  /** After the search from i, every atom up to i is visited. */
  lemma StartVisits(atoms: seq<Atom>, n: int, i: int, visited: seq<bool>, after: seq<bool>, found: seq<int>)
    requires Named(atoms, n) && |visited| == n && 0 <= i < n && !visited[i]
    requires forall k | 0 <= k < i :: visited[k]
    requires after == Drain(atoms, n, visited[i := true], [i], []).0
    requires found == Drain(atoms, n, visited[i := true], [i], []).1
    ensures forall k | 0 <= k < i + 1 :: after[k]
  {
    ComponentStart(atoms, n, i, visited, after, found);
  }

  /** The induction step of ComponentsFacts: the molecule found from i put
      in front of the molecules of the rest. */
  lemma ComponentsStep(atoms: seq<Atom>, n: int, i: int, w: seq<bool>, molId: int, v: seq<bool>, c: seq<int>, rest: seq<Molecule>)
    requires Named(atoms, n) && |w| == n && 0 <= i < n && !w[i]
    requires forall k | 0 <= k < i :: w[k]
    requires v == Drain(atoms, n, w[i := true], [i], []).0
    requires c == Drain(atoms, n, w[i := true], [i], []).1
    requires Built(atoms, n, v, molId + 1, rest)
    ensures Members(atoms, c) && Built(atoms, n, w, molId, [MakeMolecule(atoms, molId, c)] + rest)
  {
    ComponentStart(atoms, n, i, w, v, c);
    NamedMembers(atoms, n, c);
    var ms := [MakeMolecule(atoms, molId, c)] + rest;
    PrependedCons(MakeMolecule(atoms, molId, c), rest);
    StepNumbered(atoms, n, w, molId, v, c, rest);
    StepDisjoint(n, w, v, c, rest, ms);
    StepCovers(n, w, v, c, rest, ms);
    StepSmallest(n, i, w, v, c, rest, ms);
    StepNoForward(atoms, n, w, v, c, rest, ms);
  }

  lemma StepNumbered(atoms: seq<Atom>, n: int, w: seq<bool>, molId: int, v: seq<bool>, c: seq<int>, rest: seq<Molecule>)
    requires Named(atoms, n) && |w| == n && |v| == n
    requires Cluster(atoms, n, c) && Unseen(w, c) && Marks(v, w, c)
    requires Numbered(atoms, n, v, molId + 1, rest)
    ensures Members(atoms, c) && Numbered(atoms, n, w, molId, [MakeMolecule(atoms, molId, c)] + rest)
  {
    NamedMembers(atoms, n, c);
    var ms := [MakeMolecule(atoms, molId, c)] + rest;
    forall m | 0 < m < |ms|
      ensures ms[m] == rest[m - 1]
      ensures ms[m].id == molId + m && Cluster(atoms, n, ms[m].atomIndices) && Unseen(w, ms[m].atomIndices)
      ensures ms[m] == MakeMolecule(atoms, molId + m, ms[m].atomIndices)
    {
      NumberedAt(atoms, n, v, molId, rest, m - 1, m);
      UnseenWeaken(n, w, v, c, rest[m - 1].atomIndices);
    }
  }

  /** Entry j of a list numbered from molId + 1 carries number molId + next,
      where next is j + 1. */
  lemma NumberedAt(atoms: seq<Atom>, n: int, v: seq<bool>, molId: int, rest: seq<Molecule>, j: int, next: int)
    requires Named(atoms, n) && |v| == n
    requires Numbered(atoms, n, v, molId + 1, rest)
    requires 0 <= j < |rest| && next == j + 1
    ensures rest[j].id == molId + next && Cluster(atoms, n, rest[j].atomIndices) && Unseen(v, rest[j].atomIndices)
    ensures rest[j] == MakeMolecule(atoms, molId + next, rest[j].atomIndices)
  {
    assert molId + 1 + j == molId + next;
  }

  /** Atoms unmarked in v, which holds w, are unmarked in w. */
  lemma UnseenWeaken(n: int, w: seq<bool>, v: seq<bool>, c: seq<int>, r: seq<int>)
    requires |w| == n && |v| == n && Marks(v, w, c) && InRange(r, n) && Unseen(v, r)
    ensures Unseen(w, r)
  {
    forall t | 0 <= t < |r|
      ensures !w[r[t]]
    {
      assert !v[r[t]];
    }
  }

  /** An atom of a later molecule is not in c. */
  lemma RestOutside(n: int, w: seq<bool>, v: seq<bool>, c: seq<int>, rest: seq<Molecule>, m: int, k: int)
    requires |w| == n && |v| == n && Marks(v, w, c)
    requires 0 <= m < |rest| && InRange(rest[m].atomIndices, n) && Unseen(v, rest[m].atomIndices)
    requires k in rest[m].atomIndices
    ensures k !in c
  {
    var r := rest[m].atomIndices;
    var t :| 0 <= t < |r| && r[t] == k;
    assert !v[r[t]];
  }

  lemma StepDisjoint(n: int, w: seq<bool>, v: seq<bool>, c: seq<int>, rest: seq<Molecule>, ms: seq<Molecule>)
    requires |w| == n && |v| == n && Marks(v, w, c)
    requires Prepended(ms, c, rest)
    requires forall m | 0 <= m < |rest| :: InRange(rest[m].atomIndices, n) && Unseen(v, rest[m].atomIndices)
    requires Disjoint(rest)
    ensures Disjoint(ms)
  {
    forall m, k | 0 < m < |ms| && k in ms[m].atomIndices
      ensures Owner(ms, k) == m
    {
      RestOutside(n, w, v, c, rest, m - 1, k);
    }
  }

  lemma StepCovers(n: int, w: seq<bool>, v: seq<bool>, c: seq<int>, rest: seq<Molecule>, ms: seq<Molecule>)
    requires |w| == n && |v| == n && Marks(v, w, c)
    requires Prepended(ms, c, rest)
    requires Covers(rest, v)
    ensures Covers(ms, w)
  {
  }

  lemma StepSmallest(n: int, i: int, w: seq<bool>, v: seq<bool>, c: seq<int>, rest: seq<Molecule>, ms: seq<Molecule>)
    requires |w| == n && |v| == n && Marks(v, w, c) && 0 <= i < n
    requires forall k | 0 <= k < i :: w[k]
    requires Prepended(ms, c, rest) && c != [] && c[0] == i
    requires FirstSmallest(rest, v)
    ensures FirstSmallest(ms, w)
  {
    forall m, k | 0 < m < |ms| && |ms[m].atomIndices| > 0 && 0 <= k < ms[m].atomIndices[0] && k < |w|
      ensures w[k] || Owner(ms, k) < m
    {
      assert v[k] || Owner(rest, k) < m - 1;
    }
  }

  lemma StepNoForward(atoms: seq<Atom>, n: int, w: seq<bool>, v: seq<bool>, c: seq<int>, rest: seq<Molecule>, ms: seq<Molecule>)
    requires 0 <= n <= |atoms| && |w| == n && |v| == n && Marks(v, w, c)
    requires InRange(c, |atoms|) && Spread(atoms, c, v)
    requires Prepended(ms, c, rest)
    requires NoForward(atoms, rest, v)
    ensures NoForward(atoms, ms, w)
  {
    forall m, a, o | 0 <= m < |ms| && a in ms[m].atomIndices && 0 <= a < |atoms| && 0 <= o < |w|
                     && HasBondTo(atoms[a].bonds, o)
      ensures w[o] || Owner(ms, o) <= m
    {
      if m == 0 {
        var t :| 0 <= t < |c| && c[t] == a;
        assert v[o];
      } else {
        assert v[o] || Owner(rest, o) <= m - 1;
      }
    }
  }

  /** The molecules of the first n atoms: numbered from 0; each a
      non-empty list of distinct atoms, every atom but the first named by an
      atom before it, carrying the properties of its atoms; every atom in
      exactly one; each molecule starting at the smallest atom not in an
      earlier one; and no bond leading from a molecule to a later one. No
      atoms, no molecules. */
  lemma MoleculesPartition(atoms: seq<Atom>, n: int)
    requires Named(atoms, n)
    ensures var ms := Molecules(atoms, n);
      (n == 0 ==> ms == [])
      && (forall m | 0 <= m < |ms| ::
            ms[m].id == m && Cluster(atoms, n, ms[m].atomIndices) && Members(atoms, ms[m].atomIndices)
            && ms[m] == MakeMolecule(atoms, m, ms[m].atomIndices))
      && Disjoint(ms)
      && (forall k | 0 <= k < n :: Owner(ms, k) < |ms|)
      && (forall m, k | 0 <= m < |ms| && 0 <= k < ms[m].atomIndices[0] :: Owner(ms, k) < m)
      && (forall m, a, o | 0 <= m < |ms| && a in ms[m].atomIndices && 0 <= o < n && HasBondTo(atoms[a].bonds, o) ::
            Owner(ms, o) <= m)
  {
    var ms := Molecules(atoms, n);
    if n > 0 {
      var none := seq(n, _ => false);
      assert ms == Components(atoms, n, 0, none, 0);
      PartitionOf(atoms, n, none, ms);
    }
  }

  /** The facts of MoleculesPartition about the list built from the all-unseen
      marking. */
  lemma PartitionOf(atoms: seq<Atom>, n: int, none: seq<bool>, ms: seq<Molecule>)
    requires Named(atoms, n) && |none| == n && (forall k | 0 <= k < n :: !none[k])
    requires ms == Components(atoms, n, 0, none, 0)
    ensures forall m | 0 <= m < |ms| :: |ms[m].atomIndices| > 0
    ensures forall m, a | 0 <= m < |ms| && a in ms[m].atomIndices :: 0 <= a < n
    ensures forall m | 0 <= m < |ms| ::
            ms[m].id == m && Cluster(atoms, n, ms[m].atomIndices) && Members(atoms, ms[m].atomIndices)
            && ms[m] == MakeMolecule(atoms, m, ms[m].atomIndices)
    ensures Disjoint(ms)
    ensures forall k | 0 <= k < n :: Owner(ms, k) < |ms|
    ensures forall m, k | 0 <= m < |ms| && 0 <= k < ms[m].atomIndices[0] :: Owner(ms, k) < m
    ensures forall m, a, o | 0 <= m < |ms| && a in ms[m].atomIndices && 0 <= o < n && HasBondTo(atoms[a].bonds, o) ::
            Owner(ms, o) <= m
  {
    ComponentsFacts(atoms, n, 0, none, 0);
    PartitionShape(atoms, n, none, ms);
    MembersInRange(ms, n);
    PartitionOrder(atoms, n, none, ms);
  }

  lemma PartitionShape(atoms: seq<Atom>, n: int, none: seq<bool>, ms: seq<Molecule>)
    requires Named(atoms, n) && |none| == n
    requires Numbered(atoms, n, none, 0, ms)
    ensures forall m | 0 <= m < |ms| ::
            ms[m].id == m && Cluster(atoms, n, ms[m].atomIndices) && Members(atoms, ms[m].atomIndices)
            && ms[m] == MakeMolecule(atoms, m, ms[m].atomIndices)
  {
    forall m | 0 <= m < |ms|
      ensures Cluster(atoms, n, ms[m].atomIndices) && Members(atoms, ms[m].atomIndices)
    {
      NamedMembers(atoms, n, ms[m].atomIndices);
    }
  }

  lemma PartitionOrder(atoms: seq<Atom>, n: int, none: seq<bool>, ms: seq<Molecule>)
    requires Named(atoms, n) && |none| == n && forall k | 0 <= k < n :: !none[k]
    requires forall m | 0 <= m < |ms| :: |ms[m].atomIndices| > 0
    requires forall m, a | 0 <= m < |ms| && a in ms[m].atomIndices :: 0 <= a < n
    requires Covers(ms, none) && FirstSmallest(ms, none) && NoForward(atoms, ms, none)
    ensures forall k | 0 <= k < n :: Owner(ms, k) < |ms|
    ensures forall m, k | 0 <= m < |ms| && 0 <= k < ms[m].atomIndices[0] :: Owner(ms, k) < m
    ensures forall m, a, o | 0 <= m < |ms| && a in ms[m].atomIndices && 0 <= o < n && HasBondTo(atoms[a].bonds, o) ::
            Owner(ms, o) <= m
  {
    forall m, k | 0 <= m < |ms| && 0 <= k < ms[m].atomIndices[0]
      ensures Owner(ms, k) < m
    {
      assert ms[m].atomIndices[0] in ms[m].atomIndices;
    }
  }

  /** An atom of a molecule within the first n atoms is one of them. */
  lemma MembersInRange(ms: seq<Molecule>, n: int)
    requires forall m | 0 <= m < |ms| :: InRange(ms[m].atomIndices, n)
    ensures forall m, a | 0 <= m < |ms| && a in ms[m].atomIndices :: 0 <= a < n
  {
    forall m, a | 0 <= m < |ms| && a in ms[m].atomIndices
      ensures 0 <= a < n
    {
      var r := ms[m].atomIndices;
      var t :| 0 <= t < |r| && r[t] == a;
    }
  }

  /** Bonds recorded on both atoms: an entry of k naming o means an entry of
      o naming k. */
  predicate Undirected(atoms: seq<Atom>, n: int)
    requires 0 <= n <= |atoms|
  {
    forall k, o | 0 <= k < n && 0 <= o < n && HasBondTo(atoms[k].bonds, o) :: HasBondTo(atoms[o].bonds, k)
  }

  /** The bond graph the interaction engine keeps records every bond on both
      atoms. */
  lemma WellFormedUndirected(atoms: seq<Atom>)
    requires WellFormed(atoms)
    ensures Undirected(atoms, |atoms|)
  {
    forall k, o | 0 <= k < |atoms| && 0 <= o < |atoms| && HasBondTo(atoms[k].bonds, o)
      ensures HasBondTo(atoms[o].bonds, k)
    {
      MirrorBack(atoms, o, k);
    }
  }

  /** When bonds are recorded on both atoms, a bond between two of the first
      n atoms puts them in the same molecule. */
  lemma BondedSameMolecule(atoms: seq<Atom>, n: int, a: int, o: int)
    requires Named(atoms, n) && Undirected(atoms, n)
    requires 0 <= a < n && 0 <= o < n && HasBondTo(atoms[a].bonds, o)
    ensures Owner(Molecules(atoms, n), a) == Owner(Molecules(atoms, n), o) < |Molecules(atoms, n)|
  {
    var ms := Molecules(atoms, n);
    MoleculesPartition(atoms, n);
    var ma := Owner(ms, a);
    var mo := Owner(ms, o);
    assert mo <= ma;
    assert HasBondTo(atoms[o].bonds, a);
    assert ma <= mo;
  }

  /** Each molecule the tracker builds over a well-formed population counts
      every bond among its atoms once: twice its bond energy is the strength
      of all its atoms' entries. */
  lemma MoleculeBondEnergy(atoms: seq<Atom>, m: int)
    requires Named(atoms, |atoms|) && WellFormed(atoms) && 0 <= m < |Molecules(atoms, |atoms|)|
    ensures var mol := Molecules(atoms, |atoms|)[m];
      InRange(mol.atomIndices, |atoms|) && 2.0 * mol.totalBondEnergy == AllStrength(atoms, mol.atomIndices)
  {
    var n := |atoms|;
    var ms := Molecules(atoms, n);
    MoleculesPartition(atoms, n);
    WellFormedUndirected(atoms);
    var c := ms[m].atomIndices;
    forall t, b | 0 <= t < |c| && b in atoms[c[t]].bonds
      ensures b.otherAtomIdx in c
    {
      var a := c[t];
      var p :| 0 <= p < |atoms[a].bonds| && atoms[a].bonds[p] == b;
      assert 0 <= b.otherAtomIdx < n;
      BondedSameMolecule(atoms, n, a, b.otherAtomIdx);
    }
    BondCountedOnce(atoms, c);
  }

  // ---- the tracker -------------------------------------------------------------

  /** MoleculeTracker: the molecule list of the last rebuild. */
  class MoleculeTracker {
    var molecules: seq<Molecule>

    constructor ()
      ensures molecules == []
    {
      molecules := [];
    }

    /** update: clears the list and rebuilds it from the bond lists of the
        first atomCount atoms. The new list depends on the atoms only, so
        rebuilding over an unchanged graph gives the same list. */
    method Update(atoms: seq<Atom>, atomCount: int)
      modifies this
      requires Named(atoms, atomCount)
      ensures molecules == Molecules(atoms, atomCount)
    {
      molecules := [];
      if atomCount == 0 {
        return;
      }
      var visited := seq(atomCount, _ => false);
      var molId := 0;
      var i := 0;
      assert molecules + Components(atoms, atomCount, i, visited, molId) == Molecules(atoms, atomCount);
      while i < atomCount
        invariant 0 <= i <= atomCount && |visited| == atomCount
        invariant molecules + Components(atoms, atomCount, i, visited, molId) == Molecules(atoms, atomCount)
      {
        if !visited[i] {
          ghost var before := visited;
          ghost var rest0 := Components(atoms, atomCount, i, before, molId);
          visited := visited[i := true];
          var indices;
          indices, visited := Search(atoms, atomCount, visited, i);
          NamedMembers(atoms, atomCount, indices);
          var mol := Measure(atoms, molId, indices);
          ghost var rest1 := Components(atoms, atomCount, i + 1, visited, molId + 1);
          assert rest0 == [mol] + rest1;
          assert molecules + rest0 == (molecules + [mol]) + rest1;
          molecules := molecules + [mol];
          molId := molId + 1;
        }
        i := i + 1;
      }
      assert Components(atoms, atomCount, i, visited, molId) == [];
      assert molecules + [] == molecules;
    }

    /** The breadth-first search from root, which is already visited. */
    static method Search(atoms: seq<Atom>, n: int, visited: seq<bool>, root: int) returns (indices: seq<int>, visited': seq<bool>)
      requires 0 <= n <= |atoms| && |visited| == n && 0 <= root < n
      ensures (visited', indices) == Drain(atoms, n, visited, [root], [])
    {
      var queue := [root];
      indices := [];
      visited' := visited;
      while queue != []
        invariant |visited'| == n && InRange(queue, n) && InRange(indices, n)
        invariant Drain(atoms, n, visited', queue, indices) == Drain(atoms, n, visited, [root], [])
        decreases CountFalse(visited'), |queue|
      {
        var cur := queue[0];
        ghost var v0, q0 := visited', queue[1..];
        queue := queue[1..];
        indices := indices + [cur];
        var bonds := atoms[cur].bonds;
        var p := 0;
        while p < |bonds|
          invariant 0 <= p <= |bonds| && |visited'| == n
          invariant Scan(bonds[p..], n, visited', queue) == Scan(bonds, n, v0, q0)
        {
          assert bonds[p..][1..] == bonds[p + 1..];
          var other := bonds[p].otherAtomIdx;
          if 0 <= other < n && !visited'[other] {
            visited' := visited'[other := true];
            queue := queue + [other];
          }
          p := p + 1;
        }
        assert bonds[p..] == [];
      }
    }

    /** The properties of a found molecule: total mass and weighted
        positions, the centre of mass, the bond energy and the formula. */
    static method Measure(atoms: seq<Atom>, id: int, indices: seq<int>) returns (mol: Molecule)
      requires Members(atoms, indices)
      ensures mol == MakeMolecule(atoms, id, indices)
    {
      var totalMass := 0.0;
      var center := Zero;
      var t := 0;
      while t < |indices|
        invariant 0 <= t <= |indices|
        invariant totalMass == MassOf(atoms, indices[..t]) && center == MomentOf(atoms, indices[..t])
      {
        assert indices[..t + 1][..t] == indices[..t];
        var idx := indices[t];
        totalMass := totalMass + atoms[idx].mass;
        center := center.Add(atoms[idx].pos.Scale(atoms[idx].mass));
        t := t + 1;
      }
      assert indices[..t] == indices;
      if totalMass > 0.0 {
        center := center.Scale(1.0 / totalMass);
      }
      var energy := 0.0;
      t := 0;
      while t < |indices|
        invariant 0 <= t <= |indices|
        invariant energy == EnergyOf(atoms, indices[..t])
      {
        assert indices[..t + 1][..t] == indices[..t];
        var idx := indices[t];
        var bonds := atoms[idx].bonds;
        ghost var e0 := energy;
        var p := 0;
        while p < |bonds|
          invariant 0 <= p <= |bonds|
          invariant energy == e0 + UpperEnergy(bonds[..p], idx)
        {
          assert bonds[..p + 1][..p] == bonds[..p];
          if bonds[p].otherAtomIdx > idx {
            energy := energy + bonds[p].strength;
          }
          p := p + 1;
        }
        assert bonds[..p] == bonds;
        t := t + 1;
      }
      assert indices[..t] == indices;
      var formula := ComputeFormula(atoms, indices);
      mol := Molecule(id, indices, energy, formula, center, totalMass);
    }

    /** computeFormula: the bare symbol of a single atom; otherwise the
        symbols are tallied in key order, carbon and then hydrogen are
        written and erased, and the remaining keys are written in order. */
    static method ComputeFormula(atoms: seq<Atom>, indices: seq<int>) returns (formula: string)
      requires Members(atoms, indices)
      ensures formula == FormulaOf(SymbolsOf(atoms, indices))
    {
      ghost var syms := SymbolsOf(atoms, indices);
      if |indices| == 1 {
        return atoms[indices[0]].element.value.symbol;
      }
      var counts: seq<Entry> := [];
      var t := 0;
      while t < |indices|
        invariant 0 <= t <= |indices|
        invariant counts == Tally(syms[..t])
      {
        assert syms[..t + 1][..t] == syms[..t];
        counts := Bump(counts, atoms[indices[t]].element.value.symbol);
        t := t + 1;
      }
      assert syms[..t] == syms;
      ghost var tally := counts;
      formula := "";
      formula, counts := Append(formula, counts, "C");
      ghost var withC := formula;
      formula, counts := Append(formula, counts, "H");
      ghost var head := formula;
      ghost var rest := counts;
      var p := 0;
      while p < |counts|
        invariant 0 <= p <= |counts|
        invariant formula == head + Terms(counts[..p])
      {
        TermsStep(counts, p);
        ConcatAssoc(head, Terms(counts[..p]), Term(counts[p]));
        formula := formula + Term(counts[p]);
        p := p + 1;
      }
      assert counts[..p] == counts;
      FormulaAssembled(syms, tally, withC, head, rest, formula);
    }

    /** The `append` helper: when the map holds sym, writes its term and
        erases it. */
    static method Append(formula: string, counts: seq<Entry>, sym: string) returns (formula': string, counts': seq<Entry>)
      ensures formula' == formula + Terms(Pick(counts, sym))
      ensures counts' == Without(counts, sym)
    {
      var found := Pick(counts, sym);
      if |found| == 1 {
        formula' := formula + Term(found[0]);
        counts' := Without(counts, sym);
        assert found == [] + [found[0]];
        TermsAppend([], found[0]);
        assert Terms(found) == "" + Term(found[0]) == Term(found[0]);
      } else {
        assert found == [];
        assert Terms(found) == "";
        formula', counts' := formula, counts;
        assert formula' == formula + Terms(found);
        WithoutAbsent(counts, sym);
      }
    }
  }

  lemma ConcatAssoc(a: string, b: string, c: string)
    ensures (a + b) + c == a + (b + c)
  {
  }

  lemma TermsStep(es: seq<Entry>, p: int)
    requires 0 <= p < |es|
    ensures Terms(es[..p + 1]) == Terms(es[..p]) + Term(es[p])
  {
    assert es[..p + 1] == es[..p] + [es[p]];
    TermsAppend(es[..p], es[p]);
  }

  /** The pieces computeFormula writes for a molecule of more than one atom
      make up its formula. */
  lemma FormulaAssembled(syms: seq<string>, tally: seq<Entry>, withC: string, head: string, rest: seq<Entry>, formula: string)
    requires |syms| != 1 && tally == Tally(syms)
    requires withC == "" + Terms(Pick(tally, "C"))
    requires head == withC + Terms(Pick(Without(tally, "C"), "H"))
    requires rest == Without(Without(tally, "C"), "H")
    requires formula == head + Terms(rest)
    ensures formula == FormulaOf(syms)
  {
    HillOrder(tally, rest);
    assert withC == Terms(Pick(tally, "C"));
  }

  /** Writing C's term, then H's term from what is left, then the rest,
      writes the Hill-ordered entries. */
  lemma HillOrder(es: seq<Entry>, rest: seq<Entry>)
    requires rest == Without(Without(es, "C"), "H")
    ensures Terms(Pick(es, "C")) + Terms(Pick(Without(es, "C"), "H")) + Terms(rest) == Terms(Order(es))
  {
    PickWithout(es, "C", "H");
    TermsConcat(Pick(es, "C"), Pick(es, "H"));
    TermsConcat(Pick(es, "C") + Pick(es, "H"), rest);
  }

  /** Erasing one key does not change what is found for another. */
  lemma {:induction false} PickWithout(es: seq<Entry>, s: string, x: string)
    requires s != x
    ensures Pick(Without(es, s), x) == Pick(es, x)
  {
    if es != [] {
      PickWithout(es[1..], s, x);
      if es[0].sym != s {
        assert ([es[0]] + Without(es[1..], s))[1..] == Without(es[1..], s);
      }
    }
  }

  /** Erasing an absent key changes nothing. */
  lemma {:induction false} WithoutAbsent(es: seq<Entry>, s: string)
    requires |Pick(es, s)| != 1
    ensures Without(es, s) == es
  {
    if es != [] {
      WithoutAbsent(es[1..], s);
      assert es == [es[0]] + es[1..];
    }
  }

  lemma {:induction false} TermsConcat(a: seq<Entry>, b: seq<Entry>)
    ensures Terms(a + b) == Terms(a) + Terms(b)
    decreases |b|
  {
    if b != [] {
      var b' := b[..|b| - 1];
      assert a + b == (a + b') + [b[|b| - 1]];
      assert b == b' + [b[|b| - 1]];
      TermsAppend(a + b', b[|b| - 1]);
      TermsAppend(b', b[|b| - 1]);
      TermsConcat(a, b');
    } else {
      assert a + b == a;
    }
  }
}
