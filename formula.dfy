/** The chemical formula of a molecule: the member symbols are tallied in an
    ordered map (std::map<std::string, int>, modelled as a list of entries
    kept in ascending key order), then written carbon first, hydrogen
    second and the remaining symbols in key order, each followed by its
    count when that count exceeds one. */
module Formulas {

  /** std::string's operator<: character by character, a proper prefix
      first. */
  predicate StrLess(a: string, b: string) {
    if a == [] then b != []
    else if b == [] then false
    else a[0] < b[0] || (a[0] == b[0] && StrLess(a[1..], b[1..]))
  }

  lemma {:induction false} StrLessIrreflexive(a: string)
    ensures !StrLess(a, a)
  {
    if a != [] {
      StrLessIrreflexive(a[1..]);
    }
  }

  lemma {:induction false} StrLessTrans(a: string, b: string, c: string)
    requires StrLess(a, b) && StrLess(b, c)
    ensures StrLess(a, c)
  {
    if a != [] && b != [] && c != [] && a[0] == b[0] && b[0] == c[0] {
      StrLessTrans(a[1..], b[1..], c[1..]);
    }
  }

  lemma {:induction false} StrLessTotal(a: string, b: string)
    ensures a == b || StrLess(a, b) || StrLess(b, a)
  {
    if a != [] && b != [] && a[0] == b[0] {
      StrLessTotal(a[1..], b[1..]);
      if a[1..] == b[1..] {
        assert a == [a[0]] + a[1..] && b == [b[0]] + b[1..];
      }
    }
  }

  /** One key of the ordered map and its count. */
  datatype Entry = Entry(sym: string, count: int)

  /** Keys strictly ascending, so each key is held once. */
  predicate Ascending(es: seq<Entry>) {
    forall p, q | 0 <= p < q < |es| :: StrLess(es[p].sym, es[q].sym)
  }

  /** The count held for key s, 0 when s is absent (the sum over matching
      entries, of which an ascending list has at most one). */
  function CountOf(es: seq<Entry>, s: string): int {
    if es == [] then 0
    else (if es[0].sym == s then es[0].count else 0) + CountOf(es[1..], s)
  }

  /** The keys of es, in order. */
  function Syms(es: seq<Entry>): (r: seq<string>)
    ensures |r| == |es| && forall p | 0 <= p < |es| :: r[p] == es[p].sym
  {
    if es == [] then [] else [es[0].sym] + Syms(es[1..])
  }

  lemma SymsAppend(a: seq<Entry>, b: seq<Entry>)
    ensures Syms(a + b) == Syms(a) + Syms(b)
  {
  }

  lemma SymsCons(e: Entry, es: seq<Entry>)
    ensures Syms([e] + es) == [e.sym] + Syms(es)
  {
    assert ([e] + es)[1..] == es;
  }

  /** `counts[s]++`: the entry for s is incremented, or inserted with count 1
      at its place in key order. */
  function Bump(es: seq<Entry>, s: string): (r: seq<Entry>)
    ensures forall x :: x in Syms(r) <==> x == s || x in Syms(es)
  {
    if es == [] then [Entry(s, 1)]
    else if es[0].sym == s then
      SymsCons(es[0], es[1..]);
      SymsCons(es[0].(count := es[0].count + 1), es[1..]);
      assert es == [es[0]] + es[1..];
      [es[0].(count := es[0].count + 1)] + es[1..]
    else if StrLess(s, es[0].sym) then
      SymsCons(Entry(s, 1), es);
      [Entry(s, 1)] + es
    else
      SymsCons(es[0], es[1..]);
      SymsCons(es[0], Bump(es[1..], s));
      assert es == [es[0]] + es[1..];
      [es[0]] + Bump(es[1..], s)
  }

  /** Every key of es exceeds lo. */
  predicate Above(lo: string, es: seq<Entry>) {
    forall p | 0 <= p < |es| :: StrLess(lo, es[p].sym)
  }

  lemma AscendingCons(e: Entry, es: seq<Entry>)
    requires Above(e.sym, es) && Ascending(es)
    ensures Ascending([e] + es)
  {
    var r := [e] + es;
    forall p, q | 0 <= p < q < |r|
      ensures StrLess(r[p].sym, r[q].sym)
    {
      assert r[q] == es[q - 1];
      if p > 0 {
        assert r[p] == es[p - 1];
      }
    }
  }

  /** Incrementing a key above lo in a list above lo stays above lo. */
  lemma BumpAbove(lo: string, es: seq<Entry>, s: string)
    requires Above(lo, es) && StrLess(lo, s)
    ensures Above(lo, Bump(es, s))
  {
    var r := Bump(es, s);
    forall p | 0 <= p < |r|
      ensures StrLess(lo, r[p].sym)
    {
      assert Syms(r)[p] == r[p].sym;
      assert r[p].sym in Syms(r);
      if r[p].sym != s {
        assert r[p].sym in Syms(es);
        var q :| 0 <= q < |es| && Syms(es)[q] == r[p].sym;
      }
    }
  }

  /** Incrementing keeps the keys ascending. */
  lemma {:induction false} BumpAscending(es: seq<Entry>, s: string)
    requires Ascending(es)
    ensures Ascending(Bump(es, s))
  {
    if es == [] {
    } else if es[0].sym == s {
      assert Above(es[0].sym, es[1..]);
      AscendingCons(es[0].(count := es[0].count + 1), es[1..]);
    } else if StrLess(s, es[0].sym) {
      forall q | 0 <= q < |es|
        ensures StrLess(s, es[q].sym)
      {
        if q > 0 {
          StrLessTrans(s, es[0].sym, es[q].sym);
        }
      }
      AscendingCons(Entry(s, 1), es);
    } else {
      StrLessTotal(s, es[0].sym);
      assert Ascending(es[1..]) && Above(es[0].sym, es[1..]);
      BumpAscending(es[1..], s);
      BumpAbove(es[0].sym, es[1..], s);
      AscendingCons(es[0], Bump(es[1..], s));
    }
  }

  /** The counts change only at key s, where one is added. */
  lemma {:induction false} BumpCount(es: seq<Entry>, s: string, x: string)
    ensures CountOf(Bump(es, s), x) == CountOf(es, x) + (if x == s then 1 else 0)
  {
    if es == [] {
    } else if es[0].sym == s {
      assert ([es[0].(count := es[0].count + 1)] + es[1..])[1..] == es[1..];
    } else if StrLess(s, es[0].sym) {
      assert ([Entry(s, 1)] + es)[1..] == es;
    } else {
      BumpCount(es[1..], s, x);
      assert ([es[0]] + Bump(es[1..], s))[1..] == Bump(es[1..], s);
    }
  }

  /** The ordered map after counting every symbol of `syms`. */
  function Tally(syms: seq<string>): seq<Entry> {
    if syms == [] then [] else Bump(Tally(syms[..|syms| - 1]), syms[|syms| - 1])
  }

  /** The tally holds each distinct symbol once, in ascending order, with
      its number of occurrences, and no other key. */
  lemma {:induction false} TallyCounts(syms: seq<string>)
    ensures Ascending(Tally(syms))
    ensures forall x :: CountOf(Tally(syms), x) == multiset(syms)[x]
    ensures forall x :: x in Syms(Tally(syms)) <==> x in syms
  {
    if syms != [] {
      var init := syms[..|syms| - 1];
      var s := syms[|syms| - 1];
      assert syms == init + [s];
      TallyCounts(init);
      BumpAscending(Tally(init), s);
      forall x
        ensures CountOf(Tally(syms), x) == multiset(syms)[x]
      {
        BumpCount(Tally(init), s, x);
      }
    }
  }

  /** In an ascending map, the count held for a present key is its entry's. */
  lemma {:induction false} CountOfPresent(es: seq<Entry>, p: int)
    requires Ascending(es) && 0 <= p < |es|
    ensures CountOf(es, es[p].sym) == es[p].count
  {
    assert Ascending(es[1..]);
    if p > 0 {
      StrLessIrreflexive(es[0].sym);
      assert es[0].sym != es[p].sym;
      CountOfPresent(es[1..], p - 1);
    } else {
      CountOfAbsent(es[1..], es[0].sym);
    }
  }

  /** The keys after the first of an ascending list all exceed it. */
  lemma {:induction false} CountOfAbsent(es: seq<Entry>, s: string)
    requires forall p | 0 <= p < |es| :: StrLess(s, es[p].sym)
    ensures CountOf(es, s) == 0
  {
    if es != [] {
      StrLessIrreflexive(s);
      CountOfAbsent(es[1..], s);
    }
  }

  /** The entries of es except the one for s (std::map::erase). */
  function Without(es: seq<Entry>, s: string): (r: seq<Entry>)
    ensures s !in Syms(r)
    ensures forall x | x != s :: x in Syms(r) <==> x in Syms(es)
    ensures forall e | e in r :: e in es
  {
    if es == [] then []
    else
      SymsCons(es[0], es[1..]);
      assert es == [es[0]] + es[1..];
      if es[0].sym == s then Without(es[1..], s)
      else
        SymsCons(es[0], Without(es[1..], s));
        [es[0]] + Without(es[1..], s)
  }

  /** Erasing a key keeps the keys ascending. */
  lemma {:induction false} WithoutAscending(es: seq<Entry>, s: string)
    requires Ascending(es)
    ensures Ascending(Without(es, s))
  {
    if es != [] {
      assert Ascending(es[1..]);
      WithoutAscending(es[1..], s);
      var rest := Without(es[1..], s);
      if es[0].sym != s {
        var r := [es[0]] + rest;
        forall p | 0 <= p < |rest|
          ensures StrLess(es[0].sym, rest[p].sym)
        {
          assert rest[p] in es[1..];
          var q :| 0 <= q < |es[1..]| && es[1..][q] == rest[p];
          assert es[q + 1] == rest[p];
        }
        assert forall p | 0 <= p < |rest| :: r[p + 1] == rest[p];
      }
    }
  }

  /** The entry for s as a list of at most one entry (std::map::find). */
  function Pick(es: seq<Entry>, s: string): (r: seq<Entry>)
    ensures |r| <= 1
    ensures forall e | e in r :: e in es && e.sym == s
    ensures |r| == 1 <==> s in Syms(es)
  {
    if es == [] then []
    else
      SymsCons(es[0], es[1..]);
      assert es == [es[0]] + es[1..];
      if es[0].sym == s then [es[0]] else Pick(es[1..], s)
  }

  /** The order in which the formula writes the entries: carbon, then
      hydrogen, then every other key in ascending order. */
  function Order(es: seq<Entry>): seq<Entry> {
    Pick(es, "C") + Pick(es, "H") + Without(Without(es, "C"), "H")
  }

  function Digit(d: int): char
    requires 0 <= d < 10
  {
    ('0' as int + d) as char
  }

  /** std::to_string on a non-negative int: its decimal digits, no leading
      zero. */
  function NatToString(n: nat): (r: string)
    ensures |r| >= 1
    ensures forall p | 0 <= p < |r| :: '0' <= r[p] <= '9'
    ensures n > 0 ==> r[0] != '0'
  {
    if n < 10 then [Digit(n)] else NatToString(n / 10) + [Digit(n % 10)]
  }

  /** Reads a string of decimal digits back. */
  function ParseNat(s: string): nat
    requires forall p | 0 <= p < |s| :: '0' <= s[p] <= '9'
  {
    if s == [] then 0 else 10 * ParseNat(s[..|s| - 1]) + (s[|s| - 1] as int - '0' as int)
  }

  /** The digits written for n read back as n. */
  lemma {:induction false} ParseNatToString(n: nat)
    ensures ParseNat(NatToString(n)) == n
  {
    if n >= 10 {
      ParseNatToString(n / 10);
      var s := NatToString(n);
      assert s[..|s| - 1] == NatToString(n / 10);
    }
  }

  /** A symbol followed by its count when the count exceeds one. */
  function Term(e: Entry): string {
    e.sym + (if e.count > 1 then NatToString(e.count) else "")
  }

  /** The terms of es, in order, one after another. */
  function Terms(es: seq<Entry>): string {
    if es == [] then "" else Terms(es[..|es| - 1]) + Term(es[|es| - 1])
  }

  lemma TermsAppend(es: seq<Entry>, e: Entry)
    ensures Terms(es + [e]) == Terms(es) + Term(e)
  {
    assert (es + [e])[..|es|] == es;
  }

  /** computeFormula over the symbols of a molecule's atoms: the bare symbol
      for a single atom, otherwise the terms of the tally in formula
      order. */
  function FormulaOf(syms: seq<string>): string {
    if |syms| == 1 then syms[0] else Terms(Order(Tally(syms)))
  }

  /** The formula order of an ascending map holds exactly its entries. */
  lemma OrderEntries(t: seq<Entry>)
    requires Ascending(t)
    ensures forall e | e in Order(t) :: e in t
    ensures forall x | x in Syms(t) :: x in Syms(Order(t))
  {
    var t1 := Without(t, "C");
    var rest := Without(t1, "H");
    var c := Pick(t, "C");
    var h := Pick(t, "H");
    assert Order(t) == c + h + rest;
    SymsAppend(c, h);
    SymsAppend(c + h, rest);
    forall x | x in Syms(t)
      ensures x in Syms(Order(t))
    {
      if x == "C" {
        assert Syms(c)[0] == x;
      } else if x == "H" {
        assert Syms(h)[0] == x;
      }
    }
  }

  /** What a list in formula order looks like: at most one carbon entry,
      then at most one hydrogen entry, then ascending keys that are neither. */
  predicate Shaped(c: seq<Entry>, h: seq<Entry>, rest: seq<Entry>) {
    |c| <= 1 && |h| <= 1
    && (forall e | e in c :: e.sym == "C") && (forall e | e in h :: e.sym == "H")
    && "C" !in Syms(rest) && "H" !in Syms(rest) && Ascending(rest)
  }

  /** A shaped list names each key once, and every key after carbon and
      hydrogen comes in ascending order. */
  lemma ShapedDistinct(c: seq<Entry>, h: seq<Entry>, rest: seq<Entry>)
    requires Shaped(c, h, rest)
    ensures var o := c + h + rest;
      (forall p, q | 0 <= p < q < |o| :: o[p].sym != o[q].sym)
      && (forall p, q | 0 <= p < q < |o| && o[p].sym !in ["C", "H"] :: StrLess(o[p].sym, o[q].sym))
  {
    var o := c + h + rest;
    var k := |c| + |h|;
    forall p | k <= p < |o|
      ensures o[p] == rest[p - k] && o[p].sym !in ["C", "H"]
    {
      assert Syms(rest)[p - k] == o[p].sym;
    }
    forall p | 0 <= p < k
      ensures o[p].sym in ["C", "H"]
    {
      if p < |c| {
        assert o[p] == c[p] && c[p] in c;
      } else {
        assert o[p] == h[p - |c|] && h[p - |c|] in h;
      }
    }
    forall p, q | 0 <= p < q < |o|
      ensures o[p].sym != o[q].sym
    {
      if p >= k {
        StrLessIrreflexive(o[p].sym);
      } else if q < k {
        assert p < |c| && q == |c|;
        assert o[p] == c[p] && c[p] in c && o[q] == h[0] && h[0] in h;
      }
    }
  }

  /** Each entry of the formula order carries a symbol of the input with its
      number of occurrences, and every input symbol has an entry. */
  lemma OrderCounts(syms: seq<string>, o: seq<Entry>)
    requires o == Order(Tally(syms))
    ensures forall p | 0 <= p < |o| :: o[p].sym in syms && o[p].count == multiset(syms)[o[p].sym]
    ensures forall x | x in syms :: x in Syms(o)
  {
    var t := Tally(syms);
    TallyCounts(syms);
    OrderEntries(t);
    forall p | 0 <= p < |o|
      ensures o[p].sym in syms && o[p].count == multiset(syms)[o[p].sym]
    {
      assert o[p] in Order(t);
      var q :| 0 <= q < |t| && t[q] == o[p];
      CountOfPresent(t, q);
      assert Syms(t)[q] == o[p].sym;
    }
  }

  /** The formula order of an ascending map names each key once and lists
      every key other than carbon and hydrogen in ascending order. */
  lemma OrderTail(t: seq<Entry>, o: seq<Entry>)
    requires Ascending(t) && o == Order(t)
    ensures forall p, q | 0 <= p < q < |o| :: o[p].sym != o[q].sym
    ensures forall p, q | 0 <= p < q < |o| && o[p].sym !in ["C", "H"] :: StrLess(o[p].sym, o[q].sym)
  {
    var t1 := Without(t, "C");
    var rest := Without(t1, "H");
    WithoutAscending(t, "C");
    WithoutAscending(t1, "H");
    var c := Pick(t, "C");
    var h := Pick(t, "H");
    assert o == c + h + rest;
    ShapedDistinct(c, h, rest);
  }

  /** In the formula order of a map, carbon's entry comes first. */
  lemma OrderCarbon(t: seq<Entry>, o: seq<Entry>)
    requires o == Order(t) && "C" in Syms(t)
    ensures |o| >= 1 && o[0].sym == "C"
  {
    var c := Pick(t, "C");
    assert |c| == 1 && c[0] in c;
    assert o[0] == c[0];
  }

  /** In the formula order of a map, hydrogen's entry comes right after
      carbon's, or first when there is no carbon. */
  lemma OrderHydrogen(t: seq<Entry>, o: seq<Entry>)
    requires o == Order(t) && "H" in Syms(t)
    ensures |o| >= (if "C" in Syms(t) then 2 else 1)
    ensures o[if "C" in Syms(t) then 1 else 0].sym == "H"
  {
    var c := Pick(t, "C");
    var h := Pick(t, "H");
    assert |h| == 1 && h[0] in h;
    if "C" in Syms(t) {
      assert |c| == 1;
    } else {
      assert |c| == 0;
    }
    SecondPart(c, h, Without(Without(t, "C"), "H"));
  }

  /** The first entry of the middle part of a concatenation sits right after
      the first part. */
  lemma SecondPart(c: seq<Entry>, h: seq<Entry>, rest: seq<Entry>)
    requires |h| >= 1
    ensures |c + h + rest| >= |c| + 1 && (c + h + rest)[|c|] == h[0]
  {
  }

  /** The formula order puts carbon first and hydrogen next. */
  lemma OrderHead(syms: seq<string>, o: seq<Entry>)
    requires o == Order(Tally(syms))
    ensures "C" in syms ==> |o| >= 1 && o[0].sym == "C"
    ensures "H" in syms ==> |o| >= (if "C" in syms then 2 else 1) && o[if "C" in syms then 1 else 0].sym == "H"
  {
    var t := Tally(syms);
    TallySyms(syms);
    assert "C" in syms <==> "C" in Syms(t);
    assert "H" in syms <==> "H" in Syms(t);
    if "C" in syms {
      OrderCarbon(t, o);
    }
    if "H" in syms {
      OrderHydrogen(t, o);
    }
  }

  /** The tally is ascending and holds exactly the input's symbols. */
  lemma TallySyms(syms: seq<string>)
    ensures Ascending(Tally(syms))
    ensures forall x :: x in Syms(Tally(syms)) <==> x in syms
  {
    TallyCounts(syms);
  }

  /** The formula order of a tally: each distinct symbol exactly once with
      its number of occurrences; carbon first when present; hydrogen next
      when present (first when there is no carbon); every other symbol
      after them, in ascending order. */
  lemma FormulaOrder(syms: seq<string>)
    ensures var o := Order(Tally(syms));
      (forall p | 0 <= p < |o| :: o[p].sym in syms && o[p].count == multiset(syms)[o[p].sym])
      && (forall x | x in syms :: x in Syms(o))
      && (forall p, q | 0 <= p < q < |o| :: o[p].sym != o[q].sym)
      && ("C" in syms ==> |o| >= 1 && o[0].sym == "C")
      && ("H" in syms ==> |o| >= (if "C" in syms then 2 else 1) && o[if "C" in syms then 1 else 0].sym == "H")
      && (forall p, q | 0 <= p < q < |o| && o[p].sym !in ["C", "H"] :: StrLess(o[p].sym, o[q].sym))
  {
    var o := Order(Tally(syms));
    TallySyms(syms);
    OrderCounts(syms, o);
    OrderTail(Tally(syms), o);
    OrderHead(syms, o);
  }
}
