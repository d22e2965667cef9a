/** The Aufbau electron-shell filler: which quantum numbers an atom's electrons
    get, in what order, and the outer-shell queries built on that list. */
module Electrons {
  import opened Vectors
  import opened Wrappers

  /** Principal n, angular l, magnetic m and spin s (+1 or -1). */
  datatype QuantumNumbers = QN(n: int, l: int, m: int, s: int) {
    /** The quantum-mechanical constraints: 0 <= l < n, |m| <= l, s = +1 or -1. */
    predicate Valid() {
      0 <= l < n && -l <= m <= l && (s == 1 || s == -1)
    }

    /** The order the filler emits electrons in: subshells by increasing
        n + l, then n (the Madelung rule); inside a subshell by increasing m,
        with spin +1 before spin -1. */
    predicate Precedes(o: QuantumNumbers) {
      n + l < o.n + o.l
      || (n + l == o.n + o.l && n < o.n)
      || (n == o.n && l == o.l && (m < o.m || (m == o.m && s == 1 && o.s == -1)))
    }
  }

  /** One electron; the filler leaves every field but `qn` at its default. */
  datatype Electron = Electron(qn: QuantumNumbers, zEff: real, pos: Vec3, shared: bool, sharedWith: int)

  function NewElectron(qn: QuantumNumbers): Electron {
    Electron(qn, 1.0, Zero, false, -1)
  }

  /** The Aufbau filling order as (n, l) subshells, by increasing n + l, then n. */
  const FillOrder: seq<(int, int)> := [
    (1,0),(2,0),(2,1),(3,0),(3,1),(4,0),(3,2),(4,1),(5,0),(4,2),
    (5,1),(6,0),(4,3),(5,2),(6,1),(7,0),(5,3),(6,2),(7,1),(6,3)]

  /** Number of electrons the whole table can place. */
  const TableCapacity := 132

  /** Electrons a subshell of angular number l holds: one per (m, s) with
      -l <= m <= l and s in {1, -1}. */
  function MaxInSubshell(l: int): int
  {
    2 * (2 * l + 1)
  }

  /** The (m, s) state of slot t of a subshell of angular number l, in the
      filler's order: m climbs from -l, spin +1 before spin -1. */
  function SlotState(l: int, t: int): (int, int) {
    (-l + t / 2, if t % 2 == 0 then 1 else -1)
  }

  /** The slot of state (m, s) in that order. */
  function SlotOf(l: int, m: int, s: int): int {
    2 * (m + l) + (if s == 1 then 0 else 1)
  }

  /** The capacity 2(2l+1) counts the states of a subshell exactly: each of
      its slots holds a valid (m, s) pair, and each valid pair has exactly
      one slot below the capacity, so slots and states correspond one to
      one. */
  lemma SubshellCapacity(l: int)
    requires l >= 0
    ensures MaxInSubshell(l) > 0
    ensures forall t | 0 <= t < MaxInSubshell(l) ::
      -l <= SlotState(l, t).0 <= l && (SlotState(l, t).1 == 1 || SlotState(l, t).1 == -1)
      && SlotOf(l, SlotState(l, t).0, SlotState(l, t).1) == t
    ensures forall m, s | -l <= m <= l && (s == 1 || s == -1) ::
      0 <= SlotOf(l, m, s) < MaxInSubshell(l) && SlotState(l, SlotOf(l, m, s)) == (m, s)
  {
    forall t | 0 <= t < MaxInSubshell(l)
      ensures -l <= SlotState(l, t).0 <= l && (SlotState(l, t).1 == 1 || SlotState(l, t).1 == -1)
      ensures SlotOf(l, SlotState(l, t).0, SlotState(l, t).1) == t
    {
      assert t == 2 * (t / 2) + t % 2;
    }
    forall m, s | -l <= m <= l && (s == 1 || s == -1)
      ensures 0 <= SlotOf(l, m, s) < MaxInSubshell(l) && SlotState(l, SlotOf(l, m, s)) == (m, s)
    {
      var t := SlotOf(l, m, s);
      var b := if s == 1 then 0 else 1;
      assert t == 2 * (m + l) + b;
      assert t / 2 == m + l && t % 2 == b;
    }
  }

  function Cap(i: nat): int
    requires i < |FillOrder|
  {
    MaxInSubshell(FillOrder[i].1)
  }

  /** Electrons held by the first i subshells of the table. */
  function CumCap(i: nat): nat
    requires i <= |FillOrder|
  {
    if i == 0 then 0 else CumCap(i - 1) + Cap(i - 1)
  }

  /** The t-th electron placed in table subshell i: m climbs from -l, and each
      m takes spin +1 before spin -1. */
  function SubshellElectron(i: nat, t: nat): Electron
    requires i < |FillOrder|
  {
    var (n, l) := FillOrder[i];
    NewElectron(QN(n, l, SlotState(l, t).0, SlotState(l, t).1))
  }

  function ClampCount(z: int): int {
    if z <= 0 then 0 else if z >= TableCapacity then TableCapacity else z
  }

  /** Position k of the filling sequence lies in subshell j: the window
      CumCap(j) <= k < CumCap(j + 1), or the last subshell for positions
      beyond the table. */
  predicate InBlock(k: nat, j: nat) {
    j < |FillOrder| && CumCap(j) <= k && (k < TableCapacity ==> k < CumCap(j + 1))
  }

  /** The subshell holding position k of the full filling sequence. */
  ghost function BlockOf(k: nat): (j: nat)
    ensures InBlock(k, j)
  {
    BlockExistsFrom(k, 0);
    var j :| InBlock(k, j); j
  }

  /** The k-th electron of the full filling sequence. */
  ghost function ElectronAt(k: nat): Electron {
    var i := BlockOf(k);
    SubshellElectron(i, k - CumCap(i))
  }

  /** The configuration the filler produces for atomic number z: the first
      ClampCount(z) electrons of the filling sequence. */
  ghost function Configuration(z: int): (c: seq<Electron>)
    ensures |c| == ClampCount(z)
  {
    seq(ClampCount(z), k requires 0 <= k < ClampCount(z) => ElectronAt(k))
  }

  // ---- facts about the table --------------------------------------------

  lemma CumCapNext(i: nat, c: nat)
    requires i < |FillOrder| && CumCap(i) == c
    ensures CumCap(i + 1) == c + Cap(i)
  {
  }

  lemma CumCapUpTo5()
    ensures CumCap(5) == 18
  {
    CumCapNext(0, 0); CumCapNext(1, 2); CumCapNext(2, 4); CumCapNext(3, 10); CumCapNext(4, 12);
  }

  lemma CumCapUpTo10()
    ensures CumCap(10) == 48
  {
    CumCapUpTo5();
    CumCapNext(5, 18); CumCapNext(6, 20); CumCapNext(7, 30); CumCapNext(8, 36); CumCapNext(9, 38);
  }

  lemma CumCapUpTo15()
    ensures CumCap(15) == 86
  {
    CumCapUpTo10();
    CumCapNext(10, 48); CumCapNext(11, 54); CumCapNext(12, 56); CumCapNext(13, 70); CumCapNext(14, 80);
  }

  lemma TotalCapacity()
    ensures CumCap(|FillOrder|) == TableCapacity
  {
    CumCapUpTo15();
    CumCapNext(15, 86); CumCapNext(16, 88); CumCapNext(17, 102); CumCapNext(18, 112); CumCapNext(19, 118);
  }

  lemma {:induction false} CumCapMono(i: nat, j: nat)
    requires i <= j <= |FillOrder|
    ensures CumCap(i) <= CumCap(j)
    decreases j - i
  {
    if i < j {
      CumCapMono(i, j - 1);
    }
  }

  lemma TableShape(i: nat)
    requires i < |FillOrder|
    ensures 0 <= FillOrder[i].1 < FillOrder[i].0
  {
  }

  lemma TableDistinct(a: nat, b: nat)
    requires a < b < |FillOrder|
    ensures FillOrder[a] != FillOrder[b]
  {
  }

  /** The table lists its subshells by increasing n + l, and by increasing n
      among equal n + l (the Madelung rule). */
  lemma TableOrdered(a: nat, b: nat)
    requires a < b < |FillOrder|
    ensures var (na, la) := FillOrder[a]; var (nb, lb) := FillOrder[b];
            na + la < nb + lb || (na + la == nb + lb && na < nb)
  {
  }

  lemma {:induction false} BlockExistsFrom(k: nat, i: nat)
    requires i < |FillOrder| && CumCap(i) <= k
    ensures exists j :: i <= j && InBlock(k, j)
    decreases |FillOrder| - i
  {
    if i + 1 == |FillOrder| {
      TotalCapacity();
      assert InBlock(k, i);
    } else if k < CumCap(i + 1) {
      assert InBlock(k, i);
    } else {
      BlockExistsFrom(k, i + 1);
    }
  }

  lemma CumCapBound(i: nat)
    requires i <= |FillOrder|
    ensures CumCap(i) <= TableCapacity
  {
    CumCapMono(i, |FillOrder|);
    TotalCapacity();
  }

  /** The subshell of a table position is unique. */
  lemma BlockOfIs(k: nat, i: nat)
    requires i < |FillOrder| && CumCap(i) <= k < CumCap(i + 1)
    ensures BlockOf(k) == i
  {
    CumCapBound(i + 1);
    BlockOrder(k, i, k, BlockOf(k));
    BlockOrder(k, BlockOf(k), k, i);
  }

  /** Windows of the table come in table order: a later position never lies
      in an earlier subshell. */
  lemma BlockOrder(k1: nat, j1: nat, k2: nat, j2: nat)
    requires InBlock(k1, j1) && InBlock(k2, j2) && k1 <= k2 < TableCapacity
    ensures j1 <= j2
  {
    if j2 < j1 {
      CumCapMono(j2 + 1, j1);
    }
  }

  /** Position k in the window of table subshell i is the (k - CumCap(i))-th
      electron of that subshell. */
  lemma ElectronAtBlock(i: nat, k: nat)
    requires i < |FillOrder| && CumCap(i) <= k < CumCap(i) + Cap(i)
    ensures k < TableCapacity
    ensures BlockOf(k) == i
    ensures ElectronAt(k) == SubshellElectron(i, k - CumCap(i))
  {
    WindowInTable(i, k);
    BlockOfIs(k, i);
    ElectronAtOfBlock(i, k);
  }

  lemma WindowInTable(i: nat, k: nat)
    requires i < |FillOrder| && k < CumCap(i) + Cap(i)
    ensures k < CumCap(i + 1) && k < TableCapacity
  {
    CumCapNext(i, CumCap(i));
    CumCapBound(i + 1);
  }

  lemma ElectronAtOfBlock(i: nat, k: nat)
    requires i < |FillOrder| && BlockOf(k) == i
    ensures ElectronAt(k) == SubshellElectron(i, k - CumCap(i))
  {
  }

  /** `e` agrees with the filling sequence position by position. */
  ghost predicate FillingPrefix(e: seq<Electron>) {
    forall k | 0 <= k < |e| :: e[k] == ElectronAt(k)
  }

  lemma ExtendFillingPrefix(e: seq<Electron>, x: Electron)
    requires FillingPrefix(e) && x == ElectronAt(|e|)
    ensures FillingPrefix(e + [x])
  {
    var e' := e + [x];
    forall k | 0 <= k < |e'|
      ensures e'[k] == ElectronAt(k)
    {
      if k < |e| {
        assert e'[k] == e[k];
      } else {
        assert k == |e|;
      }
    }
  }

  lemma FillingPrefixIsConfiguration(e: seq<Electron>, z: int)
    requires FillingPrefix(e) && |e| == ClampCount(z)
    ensures e == Configuration(z)
  {
  }

  // ---- the filler ------------------------------------------------------------

  /** fillElectronShells: walks the table, filling each subshell up to its
      capacity or until `atomicNumber` electrons have been placed. */
  method FillElectronShells(atomicNumber: int) returns (electrons: seq<Electron>)
    ensures electrons == Configuration(atomicNumber)
    ensures atomicNumber <= 0 ==> electrons == []
    ensures 0 <= atomicNumber <= TableCapacity ==> |electrons| == atomicNumber
    ensures atomicNumber >= TableCapacity ==> |electrons| == TableCapacity
  {
    TotalCapacity();
    electrons := [];
    var remaining := atomicNumber;
    var i := 0;
    while i < |FillOrder| && remaining > 0
      invariant 0 <= i <= |FillOrder|
      invariant |electrons| <= TableCapacity
      invariant remaining == atomicNumber - |electrons|
      invariant atomicNumber <= 0 ==> electrons == []
      invariant atomicNumber > 0 ==> remaining >= 0
      invariant |electrons| <= CumCap(i)
      invariant remaining > 0 ==> |electrons| == CumCap(i)
      invariant FillingPrefix(electrons)
    {
      var (n, l) := FillOrder[i];
      TableShape(i);
      var capacity := MaxInSubshell(l);
      var toFill := Min(remaining, capacity);
      CumCapMono(i, |FillOrder|);
      ghost var start := |electrons|;
      assert start == CumCap(i);
      ghost var goal := toFill;
      var ml := -l;
      while ml <= l && toFill > 0
        invariant |electrons| <= TableCapacity
        invariant -l <= ml <= l + 1
        invariant remaining == atomicNumber - |electrons|
        invariant |electrons| - start == goal - toFill
        invariant 0 <= toFill <= goal
        invariant toFill > 0 ==> |electrons| - start == 2 * (ml + l)
        invariant |electrons| - start <= 2 * (ml + l)
        invariant FillingPrefix(electrons)
      {
        var k := 0;
        while k < 2
          invariant |electrons| <= TableCapacity
          invariant 0 <= k <= 2
          invariant remaining == atomicNumber - |electrons|
          invariant |electrons| - start == goal - toFill
          invariant 0 <= toFill <= goal
          invariant toFill > 0 ==> |electrons| - start == 2 * (ml + l) + k
          invariant |electrons| - start <= 2 * (ml + l) + k
          invariant FillingPrefix(electrons)
        {
          if toFill <= 0 {
            break;
          }
          var spin := if k == 0 then 1 else -1;
          ghost var t := |electrons| - start;
          assert t / 2 == ml + l && t % 2 == k;
          assert t < Cap(i);
          ElectronAtBlock(i, |electrons|);
          assert SubshellElectron(i, t) == NewElectron(QN(n, l, ml, spin));
          ExtendFillingPrefix(electrons, NewElectron(QN(n, l, ml, spin)));
          electrons := electrons + [NewElectron(QN(n, l, ml, spin))];
          toFill := toFill - 1;
          remaining := remaining - 1;
          k := k + 1;
        }
        ml := ml + 1;
      }
      CumCapMono(i + 1, |FillOrder|);
      i := i + 1;
    }
    assert |electrons| == ClampCount(atomicNumber);
    FillingPrefixIsConfiguration(electrons, atomicNumber);
  }

  // ---- properties of the configuration ----------------------------------

  lemma BlockOfMono(j: nat, k: nat)
    requires j <= k < TableCapacity
    ensures BlockOf(j) <= BlockOf(k)
  {
    BlockOrder(j, BlockOf(j), k, BlockOf(k));
  }

  lemma ElectronAtValid(k: nat)
    requires k < TableCapacity
    ensures ElectronAt(k).qn.Valid()
  {
    var i := BlockOf(k);
    TableShape(i);
  }

  lemma ElectronAtOrdered(j: nat, k: nat)
    requires j < k < TableCapacity
    ensures ElectronAt(j).qn.Precedes(ElectronAt(k).qn)
  {
    BlockOfMono(j, k);
    var bj, bk := BlockOf(j), BlockOf(k);
    if bj < bk {
      TableOrdered(bj, bk);
    }
  }

  /** Every emitted electron has valid quantum numbers. */
  lemma ConfigurationValid(z: int)
    ensures forall e | e in Configuration(z) :: e.qn.Valid()
  {
    var c := Configuration(z);
    forall e | e in c
      ensures e.qn.Valid()
    {
      var k :| 0 <= k < |c| && c[k] == e;
      ElectronAtValid(k);
    }
  }

  /** Electrons come out in filling order: table order of subshells, then
      ascending m, then spin +1 before -1. */
  lemma ConfigurationOrdered(z: int)
    ensures forall a, b | 0 <= a < b < |Configuration(z)| ::
      Configuration(z)[a].qn.Precedes(Configuration(z)[b].qn)
  {
    var c := Configuration(z);
    forall a, b | 0 <= a < b < |c|
      ensures c[a].qn.Precedes(c[b].qn)
    {
      ElectronAtOrdered(a, b);
    }
  }

  /** No two electrons share all four quantum numbers (the exclusion principle). */
  lemma ConfigurationDistinct(z: int)
    ensures forall a, b | 0 <= a < b < |Configuration(z)| ::
      Configuration(z)[a].qn != Configuration(z)[b].qn
  {
    ConfigurationOrdered(z);
  }

  /** Each configuration extends the previous one by at most one electron. */
  lemma ConfigurationPrefix(z: int)
    ensures Configuration(z) <= Configuration(z + 1)
    ensures |Configuration(z + 1)| <= |Configuration(z)| + 1
  {
    var c, d := Configuration(z), Configuration(z + 1);
    assert c == d[..|c|];
  }

  /** (n, l) is one of the table's subshells. */
  predicate InTable(n: int, l: int) {
    exists i | 0 <= i < |FillOrder| :: FillOrder[i] == (n, l)
  }

  /** Number of electrons of `e` in subshell (n, l). */
  function CountSubshell(e: seq<Electron>, n: int, l: int): nat {
    if e == [] then 0
    else CountSubshell(e[..|e| - 1], n, l) + (if e[|e| - 1].qn.n == n && e[|e| - 1].qn.l == l then 1 else 0)
  }

  lemma {:induction false} CountSubshellWindow(e: seq<Electron>, n: int, l: int, lo: nat, hi: nat)
    requires lo <= hi
    requires forall p | 0 <= p < |e| && e[p].qn.n == n && e[p].qn.l == l :: lo <= p < hi
    ensures CountSubshell(e, n, l) <= Max(0, Min(|e|, hi) - lo)
  {
    if e != [] {
      var e' := e[..|e| - 1];
      forall p | 0 <= p < |e'| && e'[p].qn.n == n && e'[p].qn.l == l
        ensures lo <= p < hi
      {
        assert e'[p] == e[p];
      }
      CountSubshellWindow(e', n, l, lo, hi);
    }
  }

  /** Table position p carries the (n, l) of its subshell's table entry. */
  lemma ElectronAtSubshell(p: nat)
    requires p < TableCapacity
    ensures var b := BlockOf(p);
      (ElectronAt(p).qn.n, ElectronAt(p).qn.l) == FillOrder[b]
      && CumCap(b) <= p < CumCap(b) + Cap(b)
  {
    var b := BlockOf(p);
    CumCapNext(b, CumCap(b));
    ElectronAtOfBlock(b, p);
  }

  /** Only position p of table subshell i can carry that subshell's (n, l). */
  lemma SubshellWindow(p: nat, i: nat)
    requires p < TableCapacity && i < |FillOrder|
    requires (ElectronAt(p).qn.n, ElectronAt(p).qn.l) == FillOrder[i]
    ensures CumCap(i) <= p < CumCap(i) + Cap(i)
  {
    ElectronAtSubshell(p);
    var b := BlockOf(p);
    if b < i {
      TableDistinct(b, i);
    } else if i < b {
      TableDistinct(i, b);
    }
  }

  lemma TableSubshellBound(z: int, i: nat)
    requires i < |FillOrder|
    ensures CountSubshell(Configuration(z), FillOrder[i].0, FillOrder[i].1) <= Cap(i)
  {
    var c := Configuration(z);
    var (n, l) := FillOrder[i];
    forall p | 0 <= p < |c| && c[p].qn.n == n && c[p].qn.l == l
      ensures CumCap(i) <= p < CumCap(i) + Cap(i)
    {
      SubshellWindow(p, i);
    }
    CountSubshellWindow(c, n, l, CumCap(i), CumCap(i) + Cap(i));
  }

  lemma OffTableSubshell(z: int, n: int, l: int)
    requires !InTable(n, l)
    ensures CountSubshell(Configuration(z), n, l) == 0
  {
    var c := Configuration(z);
    forall p | 0 <= p < |c| && c[p].qn.n == n && c[p].qn.l == l
      ensures false
    {
      ElectronAtSubshell(p);
    }
    CountSubshellWindow(c, n, l, 0, 0);
  }

  /** No subshell (n, l) receives more electrons than it holds, and only
      subshells of the table receive any. */
  lemma ConfigurationSubshellBound(z: int, n: int, l: int)
    ensures !InTable(n, l) ==> CountSubshell(Configuration(z), n, l) == 0
    ensures InTable(n, l) ==> CountSubshell(Configuration(z), n, l) <= MaxInSubshell(l)
  {
    if InTable(n, l) {
      var i :| 0 <= i < |FillOrder| && FillOrder[i] == (n, l);
      TableSubshellBound(z, i);
    } else {
      OffTableSubshell(z, n, l);
    }
  }

  // ---- outer shell -------------------------------------------------------------

  /** The largest principal number in `e`, and 0 for an empty list or one
      whose principal numbers are all below 1. */
  function Outermost(e: seq<Electron>): int {
    if e == [] then 0 else Max(Outermost(e[..|e| - 1]), e[|e| - 1].qn.n)
  }

  /** Number of electrons of `e` in shell n. */
  function CountShell(e: seq<Electron>, n: int): nat {
    if e == [] then 0
    else CountShell(e[..|e| - 1], n) + (if e[|e| - 1].qn.n == n then 1 else 0)
  }

  /** Outermost is the maximum principal number, floored at 0. */
  lemma {:induction false} OutermostIsMax(e: seq<Electron>)
    ensures Outermost(e) >= 0
    ensures forall k | 0 <= k < |e| :: e[k].qn.n <= Outermost(e)
    ensures Outermost(e) > 0 ==> exists k | 0 <= k < |e| :: e[k].qn.n == Outermost(e)
  {
    if e != [] {
      var e' := e[..|e| - 1];
      OutermostIsMax(e');
      forall k | 0 <= k < |e|
        ensures e[k].qn.n <= Outermost(e)
      {
        if k < |e'| { assert e[k] == e'[k]; }
      }
      if Outermost(e) > 0 && Outermost(e) != e[|e| - 1].qn.n {
        var k :| 0 <= k < |e'| && e'[k].qn.n == Outermost(e');
        assert e[k] == e'[k];
      }
    }
  }

  lemma {:induction false} CountShellPositive(e: seq<Electron>, n: int, k: nat)
    requires k < |e| && e[k].qn.n == n
    ensures CountShell(e, n) >= 1
  {
    if k < |e| - 1 {
      CountShellPositive(e[..|e| - 1], n, k);
    }
  }

  /** outermostShell: the highest principal number among the electrons. */
  method OutermostShell(electrons: seq<Electron>) returns (maxN: int)
    ensures maxN == Outermost(electrons)
  {
    maxN := 0;
    var i := 0;
    while i < |electrons|
      invariant 0 <= i <= |electrons|
      invariant maxN == Outermost(electrons[..i])
    {
      assert electrons[..i + 1][..i] == electrons[..i];
      if electrons[i].qn.n > maxN {
        maxN := electrons[i].qn.n;
      }
      i := i + 1;
    }
    assert electrons[..i] == electrons;
  }

  /** countValenceElectrons: how many electrons sit in the outermost shell. */
  method CountValenceElectrons(electrons: seq<Electron>) returns (count: int)
    ensures count == CountShell(electrons, Outermost(electrons))
  {
    if electrons == [] {
      return 0;
    }
    var maxN := OutermostShell(electrons);
    count := 0;
    var i := 0;
    while i < |electrons|
      invariant 0 <= i <= |electrons|
      invariant count == CountShell(electrons[..i], maxN)
    {
      assert electrons[..i + 1][..i] == electrons[..i];
      if electrons[i].qn.n == maxN {
        count := count + 1;
      }
      i := i + 1;
    }
    assert electrons[..i] == electrons;
  }

  /** A non-empty list of electrons in real shells has at least one valence
      electron; the empty list has none. */
  lemma ValenceCount(e: seq<Electron>)
    ensures e == [] ==> CountShell(e, Outermost(e)) == 0
    ensures e != [] && (forall k | 0 <= k < |e| :: e[k].qn.n >= 1) ==> CountShell(e, Outermost(e)) >= 1
  {
    if e != [] && (forall k | 0 <= k < |e| :: e[k].qn.n >= 1) {
      OutermostIsMax(e);
      assert e[0].qn.n <= Outermost(e);
      var k :| 0 <= k < |e| && e[k].qn.n == Outermost(e);
      CountShellPositive(e, Outermost(e), k);
    }
  }
}
