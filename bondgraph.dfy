/** The bond graph held in the atoms' bond lists: its well-formedness, the
    list operations the bond protocol uses (removing every entry that names
    a partner, removing one entry), the break rule, and population totals. */
module BondGraph {
  import opened Wrappers
  import opened Vectors
  import opened Atoms

  /** The entry partner k keeps for a bond b it shares with b's partner. */
  function Mirror(b: Bond, k: int): Bond {
    b.(otherAtomIdx := k)
  }

  /** The bond list holds an entry for partner j. */
  predicate HasBondTo(bonds: seq<Bond>, j: int) {
    exists b | b in bonds :: b.otherAtomIdx == j
  }

  /** No two entries of a bond list name the same partner. */
  predicate NoDupPartners(s: seq<Bond>) {
    forall p, q | 0 <= p < q < |s| :: s[p].otherAtomIdx != s[q].otherAtomIdx
  }

  /** Every entry names another atom of the population. */
  predicate PartnersInRange(atoms: seq<Atom>) {
    forall k, p | 0 <= k < |atoms| && 0 <= p < |atoms[k].bonds| ::
      0 <= atoms[k].bonds[p].otherAtomIdx < |atoms| && atoms[k].bonds[p].otherAtomIdx != k
  }

  /** Every entry is matched by an entry of the partner with the same kind,
      order and strength. */
  predicate Reciprocal(atoms: seq<Atom>)
  {
    forall k, p | 0 <= k < |atoms| && 0 <= p < |atoms[k].bonds| :: HasMirror(atoms, k, p)
  }

  /** Entry p of atom k is matched by its mirror in the partner's list. */
  predicate HasMirror(atoms: seq<Atom>, k: int, p: int)
    requires 0 <= k < |atoms| && 0 <= p < |atoms[k].bonds|
  {
    var b := atoms[k].bonds[p];
    0 <= b.otherAtomIdx < |atoms| && Mirror(b, k) in atoms[b.otherAtomIdx].bonds
  }

  /** The shape every bond operation keeps: in-range partners, at most one
      entry per partner, and reciprocal entries. */
  predicate WellFormed(atoms: seq<Atom>) {
    PartnersInRange(atoms)
    && (forall k | 0 <= k < |atoms| :: NoDupPartners(atoms[k].bonds))
    && Reciprocal(atoms)
  }

  /** The population without any bond is well formed. */
  lemma UnbondedWellFormed(atoms: seq<Atom>)
    requires forall k | 0 <= k < |atoms| :: atoms[k].bonds == []
    ensures WellFormed(atoms)
  {
  }

  /** remove_if on a bond list: drops every entry naming partner o. */
  function RemoveRefs(s: seq<Bond>, o: int): (r: seq<Bond>)
    ensures |r| <= |s|
  {
    if s == [] then []
    else
      var last := s[|s| - 1];
      RemoveRefs(s[..|s| - 1], o) + (if last.otherAtomIdx == o then [] else [last])
  }

  lemma {:induction false} RemoveRefsMember(s: seq<Bond>, o: int, b: Bond)
    ensures b in RemoveRefs(s, o) <==> b in s && b.otherAtomIdx != o
  {
    if s != [] {
      RemoveRefsMember(s[..|s| - 1], o, b);
      assert s == s[..|s| - 1] + [s[|s| - 1]];
    }
  }

  /** erase at position p. */
  function RemoveAt(s: seq<Bond>, p: nat): seq<Bond>
    requires p < |s|
  {
    s[..p] + s[p + 1..]
  }

  lemma {:induction false} RemoveRefsAbsent(s: seq<Bond>, o: int)
    requires forall b | b in s :: b.otherAtomIdx != o
    ensures RemoveRefs(s, o) == s
  {
    if s != [] {
      RemoveRefsAbsent(s[..|s| - 1], o);
      assert s[..|s| - 1] + [s[|s| - 1]] == s;
    }
  }

  /** Erasing the one entry that names its partner is remove_if on that partner. */
  lemma {:induction false} RemoveAtIsRemoveRefs(s: seq<Bond>, p: nat)
    requires p < |s| && NoDupPartners(s)
    ensures RemoveAt(s, p) == RemoveRefs(s, s[p].otherAtomIdx)
  {
    var o := s[p].otherAtomIdx;
    var init, last := s[..|s| - 1], s[|s| - 1];
    if p == |s| - 1 {
      forall b | b in init
        ensures b.otherAtomIdx != o
      {
        var q :| 0 <= q < |init| && init[q] == b;
        assert s[q] == b;
      }
      RemoveRefsAbsent(init, o);
      assert RemoveAt(s, p) == init;
    } else {
      assert s[|s| - 1].otherAtomIdx != s[p].otherAtomIdx;
      assert NoDupPartners(init) by {
        forall a, c | 0 <= a < c < |init|
          ensures init[a].otherAtomIdx != init[c].otherAtomIdx
        {
          assert init[a] == s[a] && init[c] == s[c];
        }
      }
      assert init[p] == s[p];
      RemoveAtIsRemoveRefs(init, p);
      assert RemoveAt(s, p) == RemoveAt(init, p) + [last];
      assert RemoveRefs(s, o) == RemoveRefs(init, o) + [last];
    }
  }

  lemma RemoveAtNoDup(s: seq<Bond>, p: nat)
    requires p < |s| && NoDupPartners(s)
    ensures NoDupPartners(RemoveAt(s, p))
  {
    var r := RemoveAt(s, p);
    forall a, c | 0 <= a < c < |r|
      ensures r[a].otherAtomIdx != r[c].otherAtomIdx
    {
      var a' := if a < p then a else a + 1;
      var c' := if c < p then c else c + 1;
      assert r[a] == s[a'] && r[c] == s[c'];
    }
  }

  /** Entry r of a list is still there after a different entry is erased. */
  lemma RemoveAtKeeps(s: seq<Bond>, p: nat, r: nat)
    requires p < |s| && r < |s| && r != p
    ensures s[r] in RemoveAt(s, p)
  {
    if r < p {
      assert RemoveAt(s, p)[r] == s[r];
    } else {
      assert RemoveAt(s, p)[r - 1] == s[r];
    }
  }

  /** Erasing both entries of one bond, entry p of atom k and its mirror at
      entry q of the partner o, keeps the bond graph well formed, and every
      entry left was there before. */
  lemma RemoveBondPair(cur: seq<Atom>, out: seq<Atom>, k: int, o: int, p: nat, q: nat)
    requires WellFormed(cur) && |out| == |cur| && 0 <= k < |cur| && p < |cur[k].bonds|
    requires o == cur[k].bonds[p].otherAtomIdx && 0 <= o < |cur|
    requires q < |cur[o].bonds| && cur[o].bonds[q] == Mirror(cur[k].bonds[p], k)
    requires out[k].bonds == RemoveAt(cur[k].bonds, p) && out[o].bonds == RemoveAt(cur[o].bonds, q)
    requires forall x | 0 <= x < |cur| && x != k && x != o :: out[x].bonds == cur[x].bonds
    ensures WellFormed(out)
    ensures forall x, b | 0 <= x < |out| && b in out[x].bonds :: b in cur[x].bonds
  {
    var n := |cur|;
    assert o != k;
    forall x, r | 0 <= x < n && 0 <= r < |out[x].bonds|
      ensures cur[x].bonds[Source(x, r, k, o, p, q)] == out[x].bonds[r]
      ensures Source(x, r, k, o, p, q) < |cur[x].bonds|
    {
    }
    forall x, r | 0 <= x < n && 0 <= r < |out[x].bonds|
      ensures 0 <= out[x].bonds[r].otherAtomIdx < n && out[x].bonds[r].otherAtomIdx != x
      ensures HasMirror(out, x, r)
    {
      var b := out[x].bonds[r];
      var r' := Source(x, r, k, o, p, q);
      assert HasMirror(cur, x, r');
      var y := b.otherAtomIdx;
      var t :| 0 <= t < |cur[y].bonds| && cur[y].bonds[t] == Mirror(b, x);
      assert NoDupPartners(cur[x].bonds);
      assert x == k ==> r' != p && y != o;
      assert x == o ==> r' != q && y != k;
      if y == k {
        RemoveAtKeeps(cur[k].bonds, p, t);
      } else if y == o {
        RemoveAtKeeps(cur[o].bonds, q, t);
      }
    }
    forall x | 0 <= x < n
      ensures NoDupPartners(out[x].bonds)
    {
      if x == k {
        RemoveAtNoDup(cur[k].bonds, p);
      } else if x == o {
        RemoveAtNoDup(cur[o].bonds, q);
      }
    }
    forall x, b | 0 <= x < n && b in out[x].bonds
      ensures b in cur[x].bonds
    {
      var r :| 0 <= r < |out[x].bonds| && out[x].bonds[r] == b;
      assert cur[x].bonds[Source(x, r, k, o, p, q)] == b;
    }
  }

  /** Where entry r of atom x's list after RemoveBondPair sat before. */
  function Source(x: int, r: nat, k: int, o: int, p: nat, q: nat): nat {
    if x == k && r >= p then r + 1
    else if x == o && x != k && r >= q then r + 1
    else r
  }

  lemma {:induction false} RemoveRefsNoDup(s: seq<Bond>, o: int)
    requires NoDupPartners(s)
    ensures NoDupPartners(RemoveRefs(s, o))
  {
    if s != [] {
      var init := s[..|s| - 1];
      var last := s[|s| - 1];
      assert NoDupPartners(init);
      RemoveRefsNoDup(init, o);
      var r := RemoveRefs(s, o);
      if last.otherAtomIdx != o {
        var ri := RemoveRefs(init, o);
        forall a | 0 <= a < |ri|
          ensures ri[a].otherAtomIdx != last.otherAtomIdx
        {
          RemoveRefsMember(init, o, ri[a]);
          var q :| 0 <= q < |init| && init[q] == ri[a];
          assert s[q] == init[q];
        }
      }
    }
  }

  /** In a well-formed graph an entry of j naming i has its mirror in i. */
  lemma MirrorBack(cur: seq<Atom>, i: int, j: int)
    requires WellFormed(cur) && 0 <= j < |cur|
    ensures HasBondTo(cur[j].bonds, i) ==> HasBondTo(cur[i].bonds, j)
  {
    if HasBondTo(cur[j].bonds, i) {
      var b :| b in cur[j].bonds && b.otherAtomIdx == i;
      var p :| 0 <= p < |cur[j].bonds| && cur[j].bonds[p] == b;
      assert HasMirror(cur, j, p);
      assert Mirror(b, j) in cur[i].bonds;
    }
  }

  /** Appending a reciprocal pair of entries between two atoms not yet
      bonded keeps the bond graph well formed. */
  lemma AddBondPair(cur: seq<Atom>, out: seq<Atom>, i: int, j: int, bi: Bond)
    requires WellFormed(cur) && |out| == |cur| && 0 <= i < |cur| && 0 <= j < |cur| && i != j
    requires !HasBondTo(cur[i].bonds, j) && bi.otherAtomIdx == j
    requires out[i].bonds == cur[i].bonds + [bi] && out[j].bonds == cur[j].bonds + [Mirror(bi, i)]
    requires forall k | 0 <= k < |cur| && k != i && k != j :: out[k].bonds == cur[k].bonds
    ensures WellFormed(out)
  {
    AddBondPairMirrors(cur, out, i, j, bi);
    MirrorBack(cur, i, j);
    AppendNoDup(cur[i].bonds, bi);
    AppendNoDup(cur[j].bonds, Mirror(bi, i));
  }

  lemma AppendNoDup(s: seq<Bond>, b: Bond)
    requires NoDupPartners(s) && !HasBondTo(s, b.otherAtomIdx)
    ensures NoDupPartners(s + [b])
  {
    forall p | 0 <= p < |s|
      ensures s[p].otherAtomIdx != b.otherAtomIdx
    {
      assert s[p] in s;
    }
  }

  lemma AddBondPairMirrors(cur: seq<Atom>, out: seq<Atom>, i: int, j: int, bi: Bond)
    requires WellFormed(cur) && |out| == |cur| && 0 <= i < |cur| && 0 <= j < |cur| && i != j
    requires bi.otherAtomIdx == j
    requires out[i].bonds == cur[i].bonds + [bi] && out[j].bonds == cur[j].bonds + [Mirror(bi, i)]
    requires forall k | 0 <= k < |cur| && k != i && k != j :: out[k].bonds == cur[k].bonds
    ensures PartnersInRange(out) && Reciprocal(out)
  {
    var n := |cur|;
    forall k, p | 0 <= k < n && 0 <= p < |out[k].bonds|
      ensures 0 <= out[k].bonds[p].otherAtomIdx < n && out[k].bonds[p].otherAtomIdx != k
      ensures HasMirror(out, k, p)
    {
      if p < |cur[k].bonds| {
        assert out[k].bonds[p] == cur[k].bonds[p];
        assert HasMirror(cur, k, p);
        var o := cur[k].bonds[p].otherAtomIdx;
        var q :| 0 <= q < |cur[o].bonds| && cur[o].bonds[q] == Mirror(cur[k].bonds[p], k);
        assert out[o].bonds[q] == cur[o].bonds[q];
      } else if k == i {
        assert out[j].bonds[|cur[j].bonds|] == Mirror(bi, i);
      } else {
        assert out[i].bonds[|cur[i].bonds|] == bi;
        assert Mirror(Mirror(bi, i), j) == bi;
      }
    }
  }

  // ---- the break rule --------------------------------------------------------

  /** What decides whether a bond breaks: the distance function, the
      stretch limit and the thermal energy kB T. */
  datatype BreakRule = BreakRule(length: Vec3 -> real, maxDist: real, thermal: real)

  /** The entry b of atom k breaks when its atoms are farther apart than the
      stretch limit, or when the thermal energy exceeds half its strength. */
  predicate Breaks(atoms: seq<Atom>, rule: BreakRule, k: int, b: Bond) {
    0 <= k < |atoms| && 0 <= b.otherAtomIdx < |atoms|
    && (rule.length(atoms[k].pos.Sub(atoms[b.otherAtomIdx].pos)) > rule.maxDist
        || rule.thermal > b.strength * 0.5)
  }

  /** The distance function does not depend on the direction of the difference. */
  ghost predicate Symmetric(length: Vec3 -> real) {
    forall u: Vec3, w: Vec3 :: length(u.Sub(w)) == length(w.Sub(u))
  }

  /** A bond breaks from one side exactly when it breaks from the other. */
  lemma BreaksMirror(atoms: seq<Atom>, rule: BreakRule, k: int, b: Bond)
    requires Symmetric(rule.length) && 0 <= k < |atoms| && 0 <= b.otherAtomIdx < |atoms|
    ensures Breaks(atoms, rule, b.otherAtomIdx, Mirror(b, k)) == Breaks(atoms, rule, k, b)
  {
    var u, w := atoms[k].pos, atoms[b.otherAtomIdx].pos;
    assert rule.length(u.Sub(w)) == rule.length(w.Sub(u));
  }

  // ---- state of the break sweep ----------------------------------------------

  /** The sweep visits row i after rows 0..i-1; within row i it has examined
      the partners in done. The pair {k, o} is examined when its lower index
      is below i, or is i and the upper index is in done. */
  predicate ExaminedPair(k: int, o: int, i: int, done: set<int>) {
    Min(k, o) < i || (Min(k, o) == i && Max(k, o) in done)
  }

  /** Atom k's list s without the entries whose pair is examined and breaks. */
  function FilterE(atoms: seq<Atom>, rule: BreakRule, k: int, s: seq<Bond>, i: int, done: set<int>): seq<Bond>
  {
    if s == [] then []
    else
      var last := s[|s| - 1];
      FilterE(atoms, rule, k, s[..|s| - 1], i, done)
        + (if ExaminedPair(k, last.otherAtomIdx, i, done) && Breaks(atoms, rule, k, last) then [] else [last])
  }

  lemma {:induction false} FilterEMember(atoms: seq<Atom>, rule: BreakRule, k: int, s: seq<Bond>, i: int, done: set<int>, b: Bond)
    ensures b in FilterE(atoms, rule, k, s, i, done)
      <==> b in s && !(ExaminedPair(k, b.otherAtomIdx, i, done) && Breaks(atoms, rule, k, b))
  {
    if s != [] {
      FilterEMember(atoms, rule, k, s[..|s| - 1], i, done, b);
      assert s == s[..|s| - 1] + [s[|s| - 1]];
    }
  }

  lemma RemoveRefsSnoc(s: seq<Bond>, b: Bond, o: int)
    ensures RemoveRefs(s + [b], o) == RemoveRefs(s, o) + (if b.otherAtomIdx == o then [] else [b])
  {
    assert (s + [b])[..|s|] == s;
  }

  /** Examining one more partner o of atom k (going from done to done')
      drops its entries exactly when they break. */
  lemma {:induction false} FilterEStep(atoms: seq<Atom>, rule: BreakRule, k: int, s: seq<Bond>,
                                       i: int, done: set<int>, done': set<int>, o: int, br: bool)
    requires forall b | b in s ::
      ExaminedPair(k, b.otherAtomIdx, i, done') == (ExaminedPair(k, b.otherAtomIdx, i, done) || b.otherAtomIdx == o)
    requires !ExaminedPair(k, o, i, done)
    requires forall b | b in s && b.otherAtomIdx == o :: Breaks(atoms, rule, k, b) == br
    ensures FilterE(atoms, rule, k, s, i, done')
      == if br then RemoveRefs(FilterE(atoms, rule, k, s, i, done), o) else FilterE(atoms, rule, k, s, i, done)
  {
    if s != [] {
      var init, last := s[..|s| - 1], s[|s| - 1];
      assert forall b | b in init :: b in s;
      FilterEStep(atoms, rule, k, init, i, done, done', o, br);
      var f := FilterE(atoms, rule, k, init, i, done);
      var dropped := ExaminedPair(k, last.otherAtomIdx, i, done) && Breaks(atoms, rule, k, last);
      var x := if dropped then [] else [last];
      assert FilterE(atoms, rule, k, s, i, done) == f + x;
      if br {
        if dropped {
          assert f + x == f;
        } else {
          RemoveRefsSnoc(f, last, o);
        }
      }
    }
  }

  /** Sweep states that agree on every entry that breaks give the same list. */
  lemma {:induction false} FilterEExt(atoms: seq<Atom>, rule: BreakRule, k: int, s: seq<Bond>,
                                      i1: int, done1: set<int>, i2: int, done2: set<int>)
    requires forall b | b in s && Breaks(atoms, rule, k, b) ::
      ExaminedPair(k, b.otherAtomIdx, i1, done1) == ExaminedPair(k, b.otherAtomIdx, i2, done2)
    ensures FilterE(atoms, rule, k, s, i1, done1) == FilterE(atoms, rule, k, s, i2, done2)
  {
    if s != [] {
      assert forall b | b in s[..|s| - 1] :: b in s;
      FilterEExt(atoms, rule, k, s[..|s| - 1], i1, done1, i2, done2);
    }
  }

  /** Before the sweep nothing is dropped. */
  lemma {:induction false} FilterENone(atoms: seq<Atom>, rule: BreakRule, k: int, s: seq<Bond>)
    requires k >= 0 && forall b | b in s :: b.otherAtomIdx >= 0
    ensures FilterE(atoms, rule, k, s, 0, {}) == s
  {
    if s != [] {
      var init, last := s[..|s| - 1], s[|s| - 1];
      assert last in s;
      assert !ExaminedPair(k, last.otherAtomIdx, 0, {});
      assert forall b | b in init :: b in s;
      FilterENone(atoms, rule, k, init);
      assert init + [last] == s;
    }
  }

  /** The entries of atom k that survive the break phase, in their order. */
  function Survivors(atoms: seq<Atom>, rule: BreakRule, k: int, s: seq<Bond>): seq<Bond>
  {
    if s == [] then []
    else
      var last := s[|s| - 1];
      Survivors(atoms, rule, k, s[..|s| - 1]) + (if Breaks(atoms, rule, k, last) then [] else [last])
  }

  lemma {:induction false} SurvivorsMember(atoms: seq<Atom>, rule: BreakRule, k: int, s: seq<Bond>, b: Bond)
    ensures b in Survivors(atoms, rule, k, s) <==> b in s && !Breaks(atoms, rule, k, b)
  {
    if s != [] {
      SurvivorsMember(atoms, rule, k, s[..|s| - 1], b);
      assert s == s[..|s| - 1] + [s[|s| - 1]];
    }
  }

  /** After the last row every pair is examined. */
  lemma {:induction false} FilterEAll(atoms: seq<Atom>, rule: BreakRule, k: int, s: seq<Bond>)
    requires 0 <= k < |atoms| && forall b | b in s :: 0 <= b.otherAtomIdx < |atoms|
    ensures FilterE(atoms, rule, k, s, |atoms|, {}) == Survivors(atoms, rule, k, s)
  {
    if s != [] {
      assert forall b | b in s[..|s| - 1] :: b in s;
      FilterEAll(atoms, rule, k, s[..|s| - 1]);
    }
  }

  /** Two entries of a list without duplicate partners that name the same
      partner are the same entry. */
  lemma UniqueEntry(s: seq<Bond>, x: Bond, y: Bond)
    requires NoDupPartners(s) && x in s && y in s && x.otherAtomIdx == y.otherAtomIdx
    ensures x == y
  {
    var p :| 0 <= p < |s| && s[p] == x;
    var q :| 0 <= q < |s| && s[q] == y;
  }

  /** Every bond list is atom k's original list without the examined pairs
      that break. */
  ghost predicate BrokenUpTo(atoms: seq<Atom>, rule: BreakRule, out: seq<Atom>, i: int, done: set<int>) {
    |out| == |atoms|
    && forall k | 0 <= k < |out| :: Filtered(atoms, rule, out, k, i, done)
  }

  /** Atom k's list is its original list without the examined pairs that
      break. */
  ghost predicate Filtered(atoms: seq<Atom>, rule: BreakRule, out: seq<Atom>, k: int, i: int, done: set<int>)
    requires |out| == |atoms| && 0 <= k < |out|
  {
    out[k].bonds == FilterE(atoms, rule, k, atoms[k].bonds, i, done)
  }

  /** The sweep's position in row i's list: partners before p are examined,
      partners from p on are not. */
  ghost predicate Cursor(s: seq<Bond>, done: set<int>, p: int) {
    0 <= p <= |s|
    && (forall q | 0 <= q < p :: s[q].otherAtomIdx in done)
    && (forall q | p <= q < |s| :: s[q].otherAtomIdx !in done)
  }

  /** Only electrons, charge, cached valence and bonds differ. */
  ghost predicate SameAtoms(atoms: seq<Atom>, out: seq<Atom>) {
    |out| == |atoms|
    && forall k | 0 <= k < |out| ::
         out[k] == atoms[k].(electrons := out[k].electrons, charge := out[k].charge,
                             bonds := out[k].bonds, effectiveValence := out[k].effectiveValence)
  }

  /** What every step of the sweep keeps: the totals, the balance of every
      atom and duplicate-free lists. */
  ghost predicate Accounted(atoms: seq<Atom>, out: seq<Atom>) {
    TotalCharge(out) == TotalCharge(atoms)
    && TotalElectrons(out) == TotalElectrons(atoms)
    && (AllBalanced(atoms) ==> AllBalanced(out))
    && forall k | 0 <= k < |out| :: NoDupPartners(out[k].bonds)
  }

  /** Before the sweep every list is whole and the accounts hold. */
  lemma SweepStart(atoms: seq<Atom>, rule: BreakRule)
    requires WellFormed(atoms)
    ensures SameAtoms(atoms, atoms) && Accounted(atoms, atoms) && BrokenUpTo(atoms, rule, atoms, 0, {})
  {
    forall k | 0 <= k < |atoms|
      ensures Filtered(atoms, rule, atoms, k, 0, {})
    {
      forall b | b in atoms[k].bonds
        ensures b.otherAtomIdx >= 0
      {
        var q :| 0 <= q < |atoms[k].bonds| && atoms[k].bonds[q] == b;
      }
      FilterENone(atoms, rule, k, atoms[k].bonds);
    }
  }

  /** After the last row each list holds exactly its surviving entries. */
  lemma SweepEnd(atoms: seq<Atom>, rule: BreakRule, out: seq<Atom>)
    requires WellFormed(atoms) && BrokenUpTo(atoms, rule, out, |atoms|, {})
    ensures forall k | 0 <= k < |out| :: out[k].bonds == Survivors(atoms, rule, k, atoms[k].bonds)
  {
    forall k | 0 <= k < |out|
      ensures out[k].bonds == Survivors(atoms, rule, k, atoms[k].bonds)
    {
      assert Filtered(atoms, rule, out, k, |atoms|, {});
      forall b | b in atoms[k].bonds
        ensures 0 <= b.otherAtomIdx < |atoms|
      {
        var q :| 0 <= q < |atoms[k].bonds| && atoms[k].bonds[q] == b;
      }
      FilterEAll(atoms, rule, k, atoms[k].bonds);
    }
  }

  lemma CursorAdvance(s: seq<Bond>, done: set<int>, p: int)
    requires Cursor(s, done, p) && p < |s| && NoDupPartners(s)
    ensures Cursor(s, done + {s[p].otherAtomIdx}, p + 1)
  {
  }

  lemma CursorErase(s: seq<Bond>, done: set<int>, p: int)
    requires Cursor(s, done, p) && p < |s| && NoDupPartners(s)
    ensures Cursor(RemoveAt(s, p), done + {s[p].otherAtomIdx}, p)
  {
    var r := RemoveAt(s, p);
    forall q | p <= q < |r|
      ensures r[q].otherAtomIdx !in done + {s[p].otherAtomIdx}
    {
      assert r[q] == s[q + 1];
    }
  }

  /** Atom a differs from atom o only in electrons, charge, cached valence
      and bonds. */
  predicate SameAtom(o: Atom, a: Atom) {
    a == o.(electrons := a.electrons, charge := a.charge, bonds := a.bonds, effectiveValence := a.effectiveValence)
  }

  /** Atom k holds an ionic entry that breaks under the rule. */
  predicate LosesIonicBond(atoms: seq<Atom>, rule: BreakRule, k: int)
    requires 0 <= k < |atoms|
  {
    exists b | b in atoms[k].bonds :: b.kind == Ionic && Breaks(atoms, rule, k, b)
  }

  /** Every atom of `out` that loses no ionic bond under the rule has the
      electrons and the charge it had in `atoms`. */
  ghost predicate IonsKept(atoms: seq<Atom>, rule: BreakRule, out: seq<Atom>)
    requires |out| == |atoms|
  {
    forall k | 0 <= k < |out| && !LosesIonicBond(atoms, rule, k) ::
      out[k].electrons == atoms[k].electrons && out[k].charge == atoms[k].charge
  }

  /** A breaking ionic entry makes both of its atoms lose an ionic bond. */
  lemma IonicBreakBoth(atoms: seq<Atom>, rule: BreakRule, i: int, e: Bond)
    requires Symmetric(rule.length) && 0 <= i < |atoms| && 0 <= e.otherAtomIdx < |atoms|
    requires e in atoms[i].bonds && Mirror(e, i) in atoms[e.otherAtomIdx].bonds
    requires e.kind == Ionic && Breaks(atoms, rule, i, e)
    ensures LosesIonicBond(atoms, rule, i) && LosesIonicBond(atoms, rule, e.otherAtomIdx)
  {
    BreaksMirror(atoms, rule, i, e);
    assert Mirror(e, i).kind == Ionic;
  }

  /** Changing the electrons of two atoms only when both lose an ionic bond
      keeps IonsKept. */
  lemma IonsKeptTwo(atoms: seq<Atom>, rule: BreakRule, cur: seq<Atom>, out: seq<Atom>, i: int, j: int)
    requires |cur| == |atoms| && |out| == |cur| && 0 <= i < |cur| && 0 <= j < |cur|
    requires IonsKept(atoms, rule, cur)
    requires forall k | 0 <= k < |cur| && k != i && k != j :: out[k] == cur[k]
    requires (LosesIonicBond(atoms, rule, i) && LosesIonicBond(atoms, rule, j))
      || (out[i].electrons == cur[i].electrons && out[i].charge == cur[i].charge
          && out[j].electrons == cur[j].electrons && out[j].charge == cur[j].charge)
    ensures IonsKept(atoms, rule, out)
  {
  }

  /** An update of two atoms that moves charge and electrons between them
      and keeps each one's balance and duplicate-free list keeps the sweep's
      accounts. */
  lemma TwoAtomUpdate(atoms: seq<Atom>, cur: seq<Atom>, out: seq<Atom>, i: int, j: int)
    requires SameAtoms(atoms, cur) && Accounted(atoms, cur)
    requires |out| == |cur| && 0 <= i < |cur| && 0 <= j < |cur| && i != j
    requires forall k | 0 <= k < |cur| && k != i && k != j :: out[k] == cur[k]
    requires out[i].charge + out[j].charge == cur[i].charge + cur[j].charge
    requires |out[i].electrons| + |out[j].electrons| == |cur[i].electrons| + |cur[j].electrons|
    requires SameAtom(cur[i], out[i]) && SameAtom(cur[j], out[j])
    requires ChargeBalanced(cur[i]) ==> ChargeBalanced(out[i])
    requires ChargeBalanced(cur[j]) ==> ChargeBalanced(out[j])
    requires NoDupPartners(out[i].bonds) && NoDupPartners(out[j].bonds)
    ensures SameAtoms(atoms, out) && Accounted(atoms, out)
  {
    var mid := cur[i := out[i]];
    TotalsUpdate(cur, i, out[i]);
    TotalsUpdate(mid, j, out[j]);
    assert out == mid[j := out[j]];
  }

  /** The entry under the cursor: it comes from atom i's original list, and
      when it breaks its partner lies above i and still holds the mirror. */
  lemma CursorEntry(atoms: seq<Atom>, rule: BreakRule, cur: seq<Atom>, i: int, done: set<int>, p: int)
    requires WellFormed(atoms) && 0 <= i < |atoms|
    requires BrokenUpTo(atoms, rule, cur, i, done) && Cursor(cur[i].bonds, done, p) && p < |cur[i].bonds|
    ensures var e := cur[i].bonds[p];
      e in atoms[i].bonds && 0 <= e.otherAtomIdx < |atoms| && e.otherAtomIdx != i
      && Mirror(e, i) in atoms[e.otherAtomIdx].bonds
    ensures var e := cur[i].bonds[p];
      Breaks(atoms, rule, i, e) ==> i < e.otherAtomIdx && Mirror(e, i) in cur[e.otherAtomIdx].bonds
  {
    var e := cur[i].bonds[p];
    var m := e.otherAtomIdx;
    assert Filtered(atoms, rule, cur, i, i, done);
    FilterEMember(atoms, rule, i, atoms[i].bonds, i, done, e);
    var q :| 0 <= q < |atoms[i].bonds| && atoms[i].bonds[q] == e;
    assert HasMirror(atoms, i, q);
    if Breaks(atoms, rule, i, e) {
      assert m !in done;
      assert Filtered(atoms, rule, cur, m, i, done);
      FilterEMember(atoms, rule, m, atoms[m].bonds, i, done, Mirror(e, i));
    }
  }

  /** The bond lists after a breaking entry of row i is removed from both
      of its atoms. */
  lemma BreakStepLists(atoms: seq<Atom>, rule: BreakRule, cur: seq<Atom>, i: int, done: set<int>, p: int, out: seq<Atom>)
    requires WellFormed(atoms) && Symmetric(rule.length) && 0 <= i < |atoms|
    requires BrokenUpTo(atoms, rule, cur, i, done) && Cursor(cur[i].bonds, done, p) && p < |cur[i].bonds|
    requires NoDupPartners(cur[i].bonds)
    requires Breaks(atoms, rule, i, cur[i].bonds[p])
    requires |out| == |cur|
    requires var m := cur[i].bonds[p].otherAtomIdx;
      forall k | 0 <= k < |out| ::
        out[k].bonds == if k == i then RemoveAt(cur[i].bonds, p)
                        else if k == m then RemoveRefs(cur[m].bonds, i)
                        else cur[k].bonds
    ensures BrokenUpTo(atoms, rule, out, i, done + {cur[i].bonds[p].otherAtomIdx})
  {
    var n := |atoms|;
    var e := cur[i].bonds[p];
    var m := e.otherAtomIdx;
    CursorEntry(atoms, rule, cur, i, done, p);
    BreaksMirror(atoms, rule, i, e);
    forall k | 0 <= k < n
      ensures Filtered(atoms, rule, out, k, i, done + {m})
    {
      assert Filtered(atoms, rule, cur, k, i, done);
      if k == i {
        forall b | b in atoms[i].bonds && b.otherAtomIdx == m
          ensures Breaks(atoms, rule, i, b)
        {
          UniqueEntry(atoms[i].bonds, b, e);
        }
        FilterEStep(atoms, rule, i, atoms[i].bonds, i, done, done + {m}, m, true);
        RemoveAtIsRemoveRefs(cur[i].bonds, p);
      } else if k == m {
        forall b | b in atoms[m].bonds && b.otherAtomIdx == i
          ensures Breaks(atoms, rule, m, b)
        {
          UniqueEntry(atoms[m].bonds, b, Mirror(e, i));
        }
        FilterEStep(atoms, rule, m, atoms[m].bonds, i, done, done + {m}, i, true);
      } else {
        FilterEExt(atoms, rule, k, atoms[k].bonds, i, done, i, done + {m});
      }
    }
  }

  /** An entry that does not break changes no list when examined. */
  lemma KeepStepLists(atoms: seq<Atom>, rule: BreakRule, cur: seq<Atom>, i: int, done: set<int>, p: int)
    requires WellFormed(atoms) && Symmetric(rule.length) && 0 <= i < |atoms|
    requires BrokenUpTo(atoms, rule, cur, i, done) && Cursor(cur[i].bonds, done, p) && p < |cur[i].bonds|
    requires !Breaks(atoms, rule, i, cur[i].bonds[p])
    ensures BrokenUpTo(atoms, rule, cur, i, done + {cur[i].bonds[p].otherAtomIdx})
  {
    var n := |atoms|;
    var e := cur[i].bonds[p];
    var m := e.otherAtomIdx;
    CursorEntry(atoms, rule, cur, i, done, p);
    BreaksMirror(atoms, rule, i, e);
    forall k | 0 <= k < n
      ensures Filtered(atoms, rule, cur, k, i, done + {m})
    {
      assert Filtered(atoms, rule, cur, k, i, done);
      if k == i && i < m {
        forall b | b in atoms[i].bonds && b.otherAtomIdx == m
          ensures !Breaks(atoms, rule, i, b)
        {
          UniqueEntry(atoms[i].bonds, b, e);
        }
        FilterEStep(atoms, rule, i, atoms[i].bonds, i, done, done + {m}, m, false);
      } else if k == m && i < m {
        forall b | b in atoms[m].bonds && b.otherAtomIdx == i
          ensures !Breaks(atoms, rule, m, b)
        {
          UniqueEntry(atoms[m].bonds, b, Mirror(e, i));
        }
        FilterEStep(atoms, rule, m, atoms[m].bonds, i, done, done + {m}, i, false);
      } else {
        FilterEExt(atoms, rule, k, atoms[k].bonds, i, done, i, done + {m});
      }
    }
  }

  /** Once row i's cursor has passed its last entry, every partner above i
      named in atom i's original list has been examined. */
  lemma RowDone(atoms: seq<Atom>, rule: BreakRule, out: seq<Atom>, i: int, done: set<int>, b: Bond)
    requires 0 <= i < |atoms|
    requires BrokenUpTo(atoms, rule, out, i, done) && Cursor(out[i].bonds, done, |out[i].bonds|)
    requires b in atoms[i].bonds && b.otherAtomIdx > i
    ensures b.otherAtomIdx in done
  {
    assert Filtered(atoms, rule, out, i, i, done);
    FilterEMember(atoms, rule, i, atoms[i].bonds, i, done, b);
    if b in out[i].bonds {
      var q :| 0 <= q < |out[i].bonds| && out[i].bonds[q] == b;
    }
  }

  /** Once row i's cursor has passed its last entry, every pair with lower
      index i is examined. */
  lemma RowClosed(atoms: seq<Atom>, rule: BreakRule, out: seq<Atom>, i: int, done: set<int>)
    requires WellFormed(atoms) && 0 <= i < |atoms|
    requires BrokenUpTo(atoms, rule, out, i, done) && Cursor(out[i].bonds, done, |out[i].bonds|)
    ensures BrokenUpTo(atoms, rule, out, i + 1, {})
  {
    var n, next, none := |atoms|, i + 1, {};
    forall k | 0 <= k < n
      ensures Filtered(atoms, rule, out, k, next, none)
    {
      assert Filtered(atoms, rule, out, k, i, done);
      forall b | b in atoms[k].bonds
        ensures ExaminedPair(k, b.otherAtomIdx, i, done) == ExaminedPair(k, b.otherAtomIdx, i + 1, {})
      {
        var o := b.otherAtomIdx;
        if k == i && o > i {
          RowDone(atoms, rule, out, i, done, b);
        } else if k > i && o == i {
          var q :| 0 <= q < |atoms[k].bonds| && atoms[k].bonds[q] == b;
          assert HasMirror(atoms, k, q);
          RowDone(atoms, rule, out, i, done, Mirror(b, k));
        }
      }
      FilterEExt(atoms, rule, k, atoms[k].bonds, i, done, i + 1, {});
    }
  }

  lemma {:induction false} SurvivorsNoDup(atoms: seq<Atom>, rule: BreakRule, k: int, s: seq<Bond>)
    requires NoDupPartners(s)
    ensures NoDupPartners(Survivors(atoms, rule, k, s))
  {
    if s != [] {
      var init, last := s[..|s| - 1], s[|s| - 1];
      assert NoDupPartners(init);
      SurvivorsNoDup(atoms, rule, k, init);
      if !Breaks(atoms, rule, k, last) {
        var si := Survivors(atoms, rule, k, init);
        forall a | 0 <= a < |si|
          ensures si[a].otherAtomIdx != last.otherAtomIdx
        {
          SurvivorsMember(atoms, rule, k, init, si[a]);
          var q :| 0 <= q < |init| && init[q] == si[a];
          assert s[q] == init[q];
        }
      }
    }
  }

  /** Breaking bonds by a rule that is the same from both sides keeps the
      bond graph well formed. */
  lemma SurvivorsWellFormed(atoms: seq<Atom>, rule: BreakRule, out: seq<Atom>)
    requires WellFormed(atoms) && Symmetric(rule.length) && |out| == |atoms|
    requires forall k | 0 <= k < |out| :: out[k].bonds == Survivors(atoms, rule, k, atoms[k].bonds)
    ensures WellFormed(out)
  {
    var n := |atoms|;
    forall k, p | 0 <= k < n && 0 <= p < |out[k].bonds|
      ensures 0 <= out[k].bonds[p].otherAtomIdx < n && out[k].bonds[p].otherAtomIdx != k
      ensures HasMirror(out, k, p)
    {
      var b := out[k].bonds[p];
      SurvivorsMember(atoms, rule, k, atoms[k].bonds, b);
      var q :| 0 <= q < |atoms[k].bonds| && atoms[k].bonds[q] == b;
      assert HasMirror(atoms, k, q);
      BreaksMirror(atoms, rule, k, b);
      SurvivorsMember(atoms, rule, b.otherAtomIdx, atoms[b.otherAtomIdx].bonds, Mirror(b, k));
    }
    forall k | 0 <= k < n
      ensures NoDupPartners(out[k].bonds)
    {
      SurvivorsNoDup(atoms, rule, k, atoms[k].bonds);
    }
  }

  // ---- population totals -----------------------------------------------------

  function TotalCharge(atoms: seq<Atom>): int {
    if atoms == [] then 0 else TotalCharge(atoms[..|atoms| - 1]) + atoms[|atoms| - 1].charge
  }

  function TotalElectrons(atoms: seq<Atom>): int {
    if atoms == [] then 0 else TotalElectrons(atoms[..|atoms| - 1]) + |atoms[|atoms| - 1].electrons|
  }

  lemma {:induction false} TotalsUpdate(atoms: seq<Atom>, k: nat, a: Atom)
    requires k < |atoms|
    ensures TotalCharge(atoms[k := a]) == TotalCharge(atoms) - atoms[k].charge + a.charge
    ensures TotalElectrons(atoms[k := a]) == TotalElectrons(atoms) - |atoms[k].electrons| + |a.electrons|
  {
    var s := atoms[k := a];
    if k < |atoms| - 1 {
      assert s[..|s| - 1] == atoms[..|atoms| - 1][k := a];
      TotalsUpdate(atoms[..|atoms| - 1], k, a);
    } else {
      assert s[..|s| - 1] == atoms[..|atoms| - 1];
    }
  }

  /** Every atom's charge matches its electron count. */
  predicate AllBalanced(atoms: seq<Atom>) {
    forall k | 0 <= k < |atoms| :: ChargeBalanced(atoms[k])
  }

}
