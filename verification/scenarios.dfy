/**
  Worked examples of both engines on small tables: a code shared by both tables with
  different fuel types, a negative quantity, and a code present in one table only.
 */
module Scenarios {
  import opened Options
  import opened Text
  import opened Cells
  import opened Seqs
  import opened Schema
  import opened Records
  import opened Checks
  import opened Join
  import opened Reconcile
  import opened Summary
  import opened Comparador

  const Jan5: Stamp := DateTime(2024, 1, 5, 0)

  function Row(code: string, qty: real, fuel: string): CanonRow {
    CanonRow(
      Filled("2024-01-05", None, Some(Jan5)),
      Filled(code, None, None),
      Filled(fuel, None, None),
      Filled("", Some(qty), None),
      Missing)
  }

  /** A sorted key list holding one key only is that key alone. */
  lemma SingleKey(ks: seq<string>, k: string)
    requires StrictlySorted(ks)
    requires forall x :: x in ks <==> x == k
    ensures ks == [k]
  {
    assert k in ks;
    if |ks| >= 2 {
      StrictlySortedDistinct(ks, 0, 1);
    }
    forall i | 0 <= i < |ks| ensures ks[i] == k {
      assert ks[i] in ks;
    }
  }

  /** The record a `Row` becomes once coerced, its code already padded. */
  function Rec(code: string, qty: real, fuel: string): Record {
    Record(Some(Jan5), code, Filled(fuel, None, None), Some(qty), Missing)
  }

  /** Code "0007" with 50 litres on the same day on both sides, gasoline in A, diesel in B. */
  const Swapped: Merged := Merged("0007", Some(Rec("0007", 50.0, "GASOLINA")), Some(Rec("0007", 50.0, "DIESEL")))

  /** Two one-row tables sharing a code merge into the one pair. */
  lemma PairMerge(x: Record, y: Record)
    requires x.code == y.code
    ensures OuterJoin([x], [y]) == [Merged(x.code, Some(x), Some(y))]
  {
    var r, mm := OuterJoin([x], [y]), Merged(x.code, Some(x), Some(y));
    PairMergeSize(x, y);
    OuterJoinPairCount([x], [y], x, y);
    assert multiset([x])[x] == 1 && multiset([y])[y] == 1;
    assert mm in r;
    assert r == [mm];
  }

  lemma PairMergeSize(x: Record, y: Record)
    requires x.code == y.code
    ensures |OuterJoin([x], [y])| == 1
  {
    var k := x.code;
    assert Codes([x]) == [k] && Codes([y]) == [k];
    SingleKey(JoinKeys([x], [y]), k);
    assert SizeOver([x], [y], [k]) == GroupSize(1, 1) + SizeOver([x], [y], []);
  }

  /** The outer merge of code "7" (gasoline, in A) with code "7" (diesel, in B): one row
      pairing the two records under the padded code. */
  lemma SwappedMerge()
    ensures OuterJoin(CoerceAll([Row("7", 50.0, "GASOLINA")]), CoerceAll([Row("7", 50.0, "DIESEL")])) == [Swapped]
  {
    var x := Coerce(Row("7", 50.0, "GASOLINA"));
    var y := Coerce(Row("7", 50.0, "DIESEL"));
    assert x.code == "0007" && y.code == "0007" by {
      assert ZFill("7", 4) == "0007";
    }
    assert x == Rec("0007", 50.0, "GASOLINA") && y == Rec("0007", 50.0, "DIESEL");
    assert CoerceAll([Row("7", 50.0, "GASOLINA")]) == [x];
    assert CoerceAll([Row("7", 50.0, "DIESEL")]) == [y];
    PairMerge(x, y);
  }

  /** A finding list drawn from a one-row merge is that row or nothing. */
  lemma OneRowFinding(m: Merged, r: seq<Merged>, hit: bool)
    requires SubseqOf(r, [m])
    requires forall x :: x in r <==> x == m && hit
    ensures r == if hit then [m] else []
  {
    if |r| > 0 {
      assert r[0] in r;
    }
    if hit {
      assert m in r;
    }
  }

  /** The findings of both engines on the swapped row alone. */
  lemma SwappedRowFindings()
    ensures OnlyInA([Swapped]) == [] && OnlyInB([Swapped]) == [] && DateDivergences([Swapped]) == []
    ensures ValueDivergencesAsWritten([Swapped]) == [] && ValueDivergences([Swapped]) == []
    ensures TypeDivergences([Swapped]) == [Swapped]
    ensures DatasErradas([Swapped]) == [] && ValoresErrados([Swapped]) == []
    ensures TiposTrocados([Swapped]) == [Swapped]
  {
    IsCloseReflexive(50.0);
    assert "GASOLINA" != "DIESEL";
    OneRowFinding(Swapped, OnlyInA([Swapped]), false);
    OneRowFinding(Swapped, OnlyInB([Swapped]), false);
    OneRowFinding(Swapped, DateDivergences([Swapped]), false);
    OneRowFinding(Swapped, ValueDivergencesAsWritten([Swapped]), false);
    OneRowFinding(Swapped, ValueDivergences([Swapped]), false);
    OneRowFinding(Swapped, TypeDivergences([Swapped]), true);
    OneRowFinding(Swapped, DatasErradas([Swapped]), false);
    OneRowFinding(Swapped, ValoresErrados([Swapped]), false);
    OneRowFinding(Swapped, TiposTrocados([Swapped]), true);
  }

  /** Code "7" with 50 litres on the same day in both tables, gasoline in A and diesel in B:
      the script finds nothing missing, agreeing dates and quantities, and the one merged
      row a type divergence. */
  lemma SwappedFuelType()
    ensures var r := CompararPlanilhas([Row("7", 50.0, "GASOLINA")], [Row("7", 50.0, "DIESEL")]);
      && |r.merged| == 1 && r.merged[0].code == "0007"
      && r.apenasA == [] && r.apenasB == [] && r.datas == [] && r.valores == []
      && r.tipos == r.merged
  {
    SwappedMerge();
    SwappedRowFindings();
  }

  /** The same two tables in app.py: the one merged row is a type divergence only, under the
      fill-value quantity test and the corrected one alike. */
  lemma SwappedFuelTypeInApp()
    ensures var m := OuterJoin(CoerceAll([Row("7", 50.0, "GASOLINA")]), CoerceAll([Row("7", 50.0, "DIESEL")]));
      && OnlyInA(m) == [] && OnlyInB(m) == [] && DateDivergences(m) == []
      && ValueDivergencesAsWritten(m) == [] && ValueDivergences(m) == [] && TypeDivergences(m) == m
  {
    SwappedMerge();
    SwappedRowFindings();
  }

  /** Code "0009" with -5 litres is a negative and counts as -5 in the total. */
  lemma NegativeQuantity()
    ensures var t := CoerceAll([Row("0009", -5.0, "DIESEL")]);
      Negatives(t) == t && Litres(t) == -5.0
  {
  }

  /** Code "0003" with 30 litres of gasoline in A, nothing in B. */
  const LoneA: Merged := Merged("0003", Some(Rec("0003", 30.0, "GASOLINA")), None)

  /** The outer merge of code "0003" in A with an empty B: the A record paired with nothing. */
  lemma LoneMerge()
    ensures OuterJoin(CoerceAll([Row("0003", 30.0, "GASOLINA")]), []) == [LoneA]
  {
    var x := Coerce(Row("0003", 30.0, "GASOLINA"));
    assert x.code == "0003";
    assert x == Rec("0003", 30.0, "GASOLINA");
    assert CoerceAll([Row("0003", 30.0, "GASOLINA")]) == [x];
    assert Codes([x]) + Codes([]) == ["0003"];
    SingleKey(JoinKeys([x], []), "0003");
    assert WithCode([x], "0003") == [x];
    assert LeftOnly("0003", [x]) == [LoneA];
    assert ["0003"][1..] == [];
    assert Group([x], [], "0003") == [LoneA];
    assert JoinOver([x], [], ["0003"]) == [LoneA] + JoinOver([x], [], []);
  }

  /** The findings of both engines on the lone A row. */
  lemma LoneRowFindings()
    ensures OnlyInA([LoneA]) == [LoneA] && OnlyInB([LoneA]) == []
    ensures DatasErradas([LoneA]) == [] && TiposTrocados([LoneA]) == [] && ValoresErrados([LoneA]) == []
    ensures DateDivergences([LoneA]) == [LoneA] && TypeDivergences([LoneA]) == [LoneA]
    ensures ValueDivergencesAsWritten([LoneA]) == [LoneA] && ValueDivergences([LoneA]) == [LoneA]
  {
    assert AsText(FuelA(LoneA)) == "GASOLINA" != "nan";
    assert !IsClose(30.0, FillB);
    OneRowFinding(LoneA, OnlyInA([LoneA]), true);
    OneRowFinding(LoneA, OnlyInB([LoneA]), false);
    OneRowFinding(LoneA, DatasErradas([LoneA]), false);
    OneRowFinding(LoneA, TiposTrocados([LoneA]), false);
    OneRowFinding(LoneA, ValoresErrados([LoneA]), false);
    OneRowFinding(LoneA, DateDivergences([LoneA]), true);
    OneRowFinding(LoneA, TypeDivergences([LoneA]), true);
    OneRowFinding(LoneA, ValueDivergencesAsWritten([LoneA]), true);
    OneRowFinding(LoneA, ValueDivergences([LoneA]), true);
  }

  /** Code "0003" with 30 litres only in A: the script reports it only as missing from B;
      app.py also reports it as a date divergence, as a type divergence (its type against the
      "nan" of the absent side) and as a quantity divergence, since 30 is far from the fill
      value -888888 that stands in for the absent quantity. */
  lemma CodeOnlyInA()
    ensures var m := OuterJoin(CoerceAll([Row("0003", 30.0, "GASOLINA")]), []);
      && |m| == 1
      && OnlyInA(m) == m && OnlyInB(m) == []
      && DatasErradas(m) == [] && TiposTrocados(m) == [] && ValoresErrados(m) == []
      && DateDivergences(m) == m && TypeDivergences(m) == m
      && ValueDivergencesAsWritten(m) == m && ValueDivergences(m) == m
  {
    LoneMerge();
    LoneRowFindings();
  }
}
