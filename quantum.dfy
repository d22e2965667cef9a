/** The discrete parts of the quantum sampler: the effective nuclear charge
    by Slater's rules, and the fire colour ramp that maps a normalised
    density to a colour. */
module Quantum {
  import opened Wrappers
  import opened Vectors

  /** One entry of the occupied-orbital list handed to computeZeff: a
      principal quantum number and an angular quantum number. */
  datatype Orbital = Orbital(n: int, l: int)

  /** Slater grouping: s and p orbitals of a shell share group n*10, every d
      or f subshell is a group n*10 + l of its own. */
  function SlaterGroup(n: int, l: int): (r: int) {
    if l >= 2 then n * 10 + l else n * 10
  }

  /** What a same-group electron shields: 0.30 in the first shell, 0.35
      elsewhere. This is also what is taken back for the target itself. */
  function SameGroupShield(targetN: int): real {
    if targetN == 1 then 0.30 else 0.35
  }

  /** The shielding one listed electron contributes to the target orbital. */
  function Shield(targetN: int, targetL: int, e: Orbital): real {
    var grp := SlaterGroup(e.n, e.l);
    var targetGroup := SlaterGroup(targetN, targetL);
    if grp == targetGroup then SameGroupShield(targetN)
    else if grp < targetGroup then
      if targetL >= 2 then 1.00
      else if grp >= (targetN - 1) * 10 && grp < targetN * 10 then 0.85
      else 1.00
    else 0.0
  }

  /** The shielding sum over a list, in list order. */
  function Sigma(targetN: int, targetL: int, all: seq<Orbital>): (r: real) {
    if all == [] then 0.0
    else Sigma(targetN, targetL, all[..|all| - 1]) + Shield(targetN, targetL, all[|all| - 1])
  }

  /** The effective charge: Z less the shielding of every listed electron
      but the target itself, never below 1. */
  function Zeff(z: int, targetN: int, targetL: int, all: seq<Orbital>): (r: real) {
    MaxR(z as real - (Sigma(targetN, targetL, all) - SameGroupShield(targetN)), 1.0)
  }

  /** computeZeff: accumulates the shielding of every listed electron,
      takes back the target's own contribution and floors the result at 1. */
  method ComputeZeff(z: int, targetN: int, targetL: int, all: seq<Orbital>) returns (zeff: real)
    ensures zeff == Zeff(z, targetN, targetL, all)
    ensures zeff >= 1.0
  {
    var targetGroup := SlaterGroup(targetN, targetL);
    var sigma := 0.0;
    for k := 0 to |all|
      invariant sigma == Sigma(targetN, targetL, all[..k])
    {
      assert all[..k + 1][..k] == all[..k];
      var grp := SlaterGroup(all[k].n, all[k].l);
      if grp == targetGroup {
        sigma := sigma + (if targetN == 1 then 0.30 else 0.35);
      } else if grp < targetGroup {
        if targetL >= 2 {
          sigma := sigma + 1.00;
        } else {
          var targetSP := targetN * 10;
          var prevSP := (targetN - 1) * 10;
          if grp >= prevSP && grp < targetSP {
            sigma := sigma + 0.85;
          } else {
            sigma := sigma + 1.00;
          }
        }
      }
    }
    assert all[..|all|] == all;
    sigma := sigma - (if targetN == 1 then 0.30 else 0.35);
    zeff := z as real - sigma;
    if zeff < 1.0 {
      zeff := 1.0;
    }
  }

  /** Listing one more electron adds exactly its shielding to the sum. */
  lemma SigmaAppend(targetN: int, targetL: int, all: seq<Orbital>, e: Orbital)
    ensures Sigma(targetN, targetL, all + [e]) == Sigma(targetN, targetL, all) + Shield(targetN, targetL, e)
  {
    assert (all + [e])[..|all|] == all;
  }

  /** The shielding sum of a concatenation is the sum of the parts' sums. */
  lemma {:induction false} SigmaConcat(targetN: int, targetL: int, a: seq<Orbital>, b: seq<Orbital>)
    ensures Sigma(targetN, targetL, a + b) == Sigma(targetN, targetL, a) + Sigma(targetN, targetL, b)
    decreases |b|
  {
    if b == [] {
      assert a + b == a;
    } else {
      var init, last := b[..|b| - 1], b[|b| - 1];
      assert a + b == (a + init) + [last];
      SigmaConcat(targetN, targetL, a, init);
      SigmaAppend(targetN, targetL, a + init, last);
    }
  }

  /** The order of the orbital list does not matter: swapping two runs of it
      leaves the effective charge unchanged. */
  lemma ZeffReorder(z: int, targetN: int, targetL: int, a: seq<Orbital>, b: seq<Orbital>)
    ensures Zeff(z, targetN, targetL, a + b) == Zeff(z, targetN, targetL, b + a)
  {
    SigmaConcat(targetN, targetL, a, b);
    SigmaConcat(targetN, targetL, b, a);
  }

  /** Every contribution is one of Slater's constants: 0 above the target's
      group; 0.30 (first shell) or 0.35 in the same group; below it, 1.00 for
      a d or f target, and for an s or p target 0.85 from the shell just
      beneath and 1.00 from deeper ones. */
  lemma ShieldRules(targetN: int, targetL: int, e: Orbital)
    ensures var g, tg := SlaterGroup(e.n, e.l), SlaterGroup(targetN, targetL);
      (g > tg ==> Shield(targetN, targetL, e) == 0.0)
      && (g == tg && targetN == 1 ==> Shield(targetN, targetL, e) == 0.30)
      && (g == tg && targetN != 1 ==> Shield(targetN, targetL, e) == 0.35)
      && (g < tg && targetL >= 2 ==> Shield(targetN, targetL, e) == 1.00)
      && (g < tg && targetL < 2 && (targetN - 1) * 10 <= g ==> Shield(targetN, targetL, e) == 0.85)
      && (g < tg && targetL < 2 && g < (targetN - 1) * 10 ==> Shield(targetN, targetL, e) == 1.00)
  {
  }

  /** The group of an s or p orbital is n*10 whatever l is, and a d or f
      orbital sits in group n*10 + l, between its own shell's s/p group and
      the next shell's. */
  lemma GroupLayout(n: int, l: int)
    ensures l < 2 ==> SlaterGroup(n, l) == SlaterGroup(n, 0)
    ensures 2 <= l < 10 ==> SlaterGroup(n, 0) < SlaterGroup(n, l) < SlaterGroup(n + 1, 0)
  {
  }

  /** An electron in a higher group than the target does not shield it. */
  lemma HigherGroupIgnored(z: int, targetN: int, targetL: int, all: seq<Orbital>, e: Orbital)
    requires SlaterGroup(e.n, e.l) > SlaterGroup(targetN, targetL)
    ensures Sigma(targetN, targetL, all + [e]) == Sigma(targetN, targetL, all)
    ensures Zeff(z, targetN, targetL, all + [e]) == Zeff(z, targetN, targetL, all)
  {
    SigmaAppend(targetN, targetL, all, e);
  }

  /** An electron in a lower group shields the target: the sum grows, by at
      least 0.85, and the effective charge does not rise. */
  lemma LowerGroupShields(z: int, targetN: int, targetL: int, all: seq<Orbital>, e: Orbital)
    requires SlaterGroup(e.n, e.l) < SlaterGroup(targetN, targetL)
    ensures Sigma(targetN, targetL, all + [e]) >= Sigma(targetN, targetL, all) + 0.85
    ensures Zeff(z, targetN, targetL, all + [e]) <= Zeff(z, targetN, targetL, all)
  {
    SigmaAppend(targetN, targetL, all, e);
  }

  /** The target alone shields nothing: a lone electron sees the whole
      nuclear charge (at least 1). */
  lemma LoneElectron(z: int, targetN: int, targetL: int)
    ensures Zeff(z, targetN, targetL, [Orbital(targetN, targetL)]) == MaxR(z as real, 1.0)
  {
    var e := Orbital(targetN, targetL);
    assert [e][..0] == [];
    assert Shield(targetN, targetL, e) == SameGroupShield(targetN);
    assert Sigma(targetN, targetL, [e]) == SameGroupShield(targetN);
  }

  const Black := Vec4(0.0, 0.0, 0.0, 1.0)
  const White := Vec4(1.0, 1.0, 1.0, 1.0)

  /** The six stops of the fire ramp: black, purple, red, orange, yellow,
      white. */
  const Stops: seq<Vec4> := [
    Black,
    Vec4(0.5, 0.0, 0.99, 1.0),
    Vec4(0.8, 0.0, 0.0, 1.0),
    Vec4(1.0, 0.5, 0.0, 1.0),
    Vec4(1.0, 1.0, 0.0, 1.0),
    White]

  /** The stop pair and blend weight for a value: the value is clamped to
      [0, 1] and scaled to [0, 5]; i is its integer part, j the next stop
      (or i itself at the top), t the fractional part. */
  function StopIndices(value: real): (r: (int, int, real))
    ensures 0 <= r.0 <= r.1 <= 5
    ensures r.1 == r.0 + 1 || r.0 == r.1 == 5
    ensures 0.0 <= r.2 < 1.0
    ensures r.2 == ClampR(value, 0.0, 1.0) * 5.0 - r.0 as real
  {
    var v := ClampR(value, 0.0, 1.0);
    var s := v * 5.0;
    var i := s.Floor;
    var j := Min(i + 1, 5);
    (i, j, s - i as real)
  }

  /** heatmapColor: blends the two stops that bracket the value. */
  function HeatmapColor(value: real): (c: Vec4)
    ensures c.a == 1.0
    ensures 0.0 <= c.r <= 1.0 && 0.0 <= c.g <= 1.0 && 0.0 <= c.b <= 1.0
    ensures value <= 0.0 ==> c == Black
    ensures value >= 1.0 ==> c == White
  {
    var (i, j, t) := StopIndices(value);
    var p, q := Stops[i], Stops[j];
    ChannelsInRange(i);
    ChannelsInRange(j);
    BlendInRange(p.r, q.r, t);
    BlendInRange(p.g, q.g, t);
    BlendInRange(p.b, q.b, t);
    assert Mix(p, q, t).a == 1.0;
    Mix(p, q, t)
  }

  /** A blend of two values in [0, 1] stays in [0, 1]. */
  lemma BlendInRange(x: real, y: real, t: real)
    requires 0.0 <= x <= 1.0 && 0.0 <= y <= 1.0 && 0.0 <= t <= 1.0
    ensures 0.0 <= x * (1.0 - t) + y * t <= 1.0
  {
    assert 0.0 <= x * (1.0 - t) <= 1.0 - t;
    assert 0.0 <= y * t <= t;
  }

  /** Every stop is opaque and has its channels in [0, 1]. */
  lemma ChannelsInRange(k: int)
    requires 0 <= k < 6
    ensures Stops[k].a == 1.0
    ensures 0.0 <= Stops[k].r <= 1.0 && 0.0 <= Stops[k].g <= 1.0 && 0.0 <= Stops[k].b <= 1.0
  {
  }

  /** The value k/5 lands exactly on stop k. */
  lemma HeatmapAtStop(k: int)
    requires 0 <= k <= 5
    ensures HeatmapColor(k as real / 5.0) == Stops[k]
  {
    var v := k as real / 5.0;
    assert ClampR(v, 0.0, 1.0) == v;
    assert v * 5.0 == k as real;
    assert (v * 5.0).Floor == k;
  }
}
