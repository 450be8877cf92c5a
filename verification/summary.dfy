/**
  Fuel totals and the summary of `analisar` (app.py lines 56-167): sector filter,
  coercion, the single-table checks, the outer merge, the cross-table checks and
  the 21-entry summary built from them.
 */
module Summary {
  import opened Options
  import opened Text
  import opened Seqs
  import opened Cells
  import opened Schema
  import opened Records
  import opened Checks
  import opened Join
  import opened Reconcile

  // ----- litres -----

  /** `df["VALOR"].sum()`: NaN quantities are skipped; the sum is exact (no rounding). */
  function Litres(t: Table): (r: real)
    ensures (forall x :: x in t && x.qty.Some? ==> x.qty.value >= 0.0) ==> r >= 0.0
    ensures (forall x :: x in t && x.qty.Some? ==> x.qty.value <= 0.0) ==> r <= 0.0
    decreases |t|
  {
    if |t| == 0 then 0.0
    else
      assert forall x :: x in t[1..] ==> x in t;
      t[0].qty.GetOr(0.0) + Litres(t[1..])
  }

  /** Splitting a table by a mask splits its litres. */
  lemma {:induction false} LitresSplit(t: Table, p: Record -> bool, q: Record -> bool)
    requires forall x :: q(x) == !p(x)
    ensures Litres(Filter(t, p)) + Litres(Filter(t, q)) == Litres(t)
    decreases |t|
  {
    if |t| > 0 {
      LitresSplit(t[1..], p, q);
      if p(t[0]) {
        assert ([t[0]] + Filter(t[1..], p))[1..] == Filter(t[1..], p);
      } else {
        assert ([t[0]] + Filter(t[1..], q))[1..] == Filter(t[1..], q);
      }
    }
  }

  /** Rows with no readable quantity add nothing to the total. */
  lemma LitresIgnoreAbsent(t: Table)
    ensures Litres(Filter(t, (x: Record) => x.qty.Some?)) == Litres(t)
  {
    var p := (x: Record) => x.qty.Some?;
    var q := (x: Record) => !x.qty.Some?;
    LitresSplit(t, p, q);
    NoQuantityNoLitres(Filter(t, q));
  }

  lemma {:induction false} NoQuantityNoLitres(t: Table)
    requires forall x :: x in t ==> x.qty.None?
    ensures Litres(t) == 0.0
    decreases |t|
  {
    if |t| > 0 {
      assert t[0] in t;
      NoQuantityNoLitres(t[1..]);
    }
  }

  // ----- fuel buckets -----

  const Gasolina: seq<string> := ["GAS", "GASOLINA"]
  const Diesel: seq<string> := ["DIE", "DIESEL"]

  /** `TIPO.astype(str).str.contains(p, case=False)` for some pattern `p` of the bucket
      (the patterns hold no regular-expression metacharacters, so they match literally). */
  predicate InBucket(fuel: Cell, pats: seq<string>) {
    exists i :: 0 <= i < |pats| && Contains(Lower(AsText(fuel)), Lower(pats[i]))
  }

  /** `sum_by_fuel`: litres of the rows whose type falls in the bucket; together with the
      rows outside the bucket they make up the table's total. */
  function SumByFuel(t: Table, pats: seq<string>): (r: real)
    ensures r + Litres(Filter(t, (x: Record) => !InBucket(x.fuel, pats))) == Litres(t)
  {
    LitresSplit(t, (x: Record) => InBucket(x.fuel, pats), (x: Record) => !InBucket(x.fuel, pats));
    Litres(Filter(t, (x: Record) => InBucket(x.fuel, pats)))
  }

  lemma LowerGasolina()
    ensures Lower("GAS") == "gas" && Lower("GASOLINA") == "gasolina"
    ensures Lower("DIE") == "die" && Lower("DIESEL") == "diesel"
  {
  }

  /** A pattern that extends another adds nothing to the bucket: whatever contains
      "gasolina" contains "gas". */
  lemma ContainsPrefix(s: string, p: string, q: string)
    requires Contains(s, p + q)
    ensures Contains(s, p)
  {
    ContainsIffOccurrence(s, p + q);
    var i :| OccursAt(s, p + q, i);
    assert s[i..i + |p|] == (p + q)[..|p|] == p;
    assert OccursAt(s, p, i);
    ContainsIffOccurrence(s, p);
  }

  /** The gasoline bucket is exactly the types containing "gas" in any case, the diesel
      bucket exactly those containing "die". */
  lemma BucketsAreShortestPattern(fuel: Cell)
    ensures InBucket(fuel, Gasolina) <==> Contains(Lower(AsText(fuel)), "gas")
    ensures InBucket(fuel, Diesel) <==> Contains(Lower(AsText(fuel)), "die")
  {
    LowerGasolina();
    var s := Lower(AsText(fuel));
    if Contains(s, "gasolina") {
      assert "gasolina" == "gas" + "olina";
      ContainsPrefix(s, "gas", "olina");
    }
    if Contains(s, "diesel") {
      assert "diesel" == "die" + "sel";
      ContainsPrefix(s, "die", "sel");
    }
    if Contains(s, "gas") {
      assert Contains(s, Lower(Gasolina[0]));
    }
    if Contains(s, "die") {
      assert Contains(s, Lower(Diesel[0]));
    }
  }

  /** A blank type reads "nan" and falls in neither bucket. */
  lemma BlankTypeInNoBucket(fuel: Cell)
    requires AsText(fuel) == "nan"
    ensures !InBucket(fuel, Gasolina) && !InBucket(fuel, Diesel)
  {
    BucketsAreShortestPattern(fuel);
    assert Lower("nan") == "nan";
    assert "nan"[1..] == "an" && "an"[1..] == "n" && "n"[1..] == "";
    assert !Contains("", "gas") && !Contains("", "die");
    assert !Contains("n", "gas") && !Contains("n", "die");
    assert !Contains("an", "gas") && !Contains("an", "die");
    assert "nan"[..3] == "nan" && "nan"[0] != "gas"[0] && "nan"[0] != "die"[0];
    assert !Contains("nan", "gas") && !Contains("nan", "die");
    assert Lower(AsText(fuel)) == "nan";
  }

  // ----- the analysis -----

  /** The summary dictionary `resumo`, one field per entry, in the source's order. */
  datatype Resumo = Resumo(
    totalA: nat, totalB: nat,
    litrosA: real, litrosB: real,
    gasolinaA: real, gasolinaB: real,
    dieselA: real, dieselB: real,
    duplicadasA: nat, duplicadasB: nat,
    negativosA: nat, negativosB: nat,
    repetidasA: nat, repetidasB: nat,
    notaDiasA: nat, notaDiasB: nat,
    soEmA: nat, soEmB: nat,
    datas: nat, tipos: nat, valores: nat)

  /** The `results` dictionary of `analisar`. */
  datatype Analysis = Analysis(
    dfA: Table, dfB: Table,
    duplicadasA: Table, duplicadasB: Table,
    negativosA: Table, negativosB: Table,
    repetidasA: Table, repetidasB: Table,
    notaDiasA: Table, notaDiasB: Table,
    merged: seq<Merged>,
    soEmA: seq<Merged>, soEmB: seq<Merged>,
    datas: seq<Merged>, tipos: seq<Merged>, valores: seq<Merged>,
    resumo: Resumo)

  /** The findings and the summary of two prepared tables and their merge. */
  function Summarize(dfA: Table, dfB: Table, merged: seq<Merged>): (r: Analysis)
    ensures r.dfA == dfA && r.dfB == dfB && r.merged == merged
    ensures r.duplicadasA == Duplicates(dfA) && r.duplicadasB == Duplicates(dfB)
    ensures r.negativosA == Negatives(dfA) && r.negativosB == Negatives(dfB)
    ensures r.repetidasA == SameDayRepeats(dfA) && r.repetidasB == SameDayRepeats(dfB)
    ensures r.notaDiasA == ManyDays(dfA) && r.notaDiasB == ManyDays(dfB)
    ensures r.soEmA == OnlyInA(merged) && r.soEmB == OnlyInB(merged)
    ensures r.datas == DateDivergences(merged) && r.tipos == TypeDivergences(merged)
    ensures r.valores == ValueDivergencesAsWritten(merged)
    ensures r.resumo.totalA == |dfA| && r.resumo.totalB == |dfB|
    ensures r.resumo.litrosA == Litres(dfA) && r.resumo.litrosB == Litres(dfB)
    ensures r.resumo.gasolinaA == SumByFuel(dfA, Gasolina) && r.resumo.gasolinaB == SumByFuel(dfB, Gasolina)
    ensures r.resumo.dieselA == SumByFuel(dfA, Diesel) && r.resumo.dieselB == SumByFuel(dfB, Diesel)
    ensures r.resumo.duplicadasA == |r.duplicadasA| && r.resumo.duplicadasB == |r.duplicadasB|
    ensures r.resumo.negativosA == |r.negativosA| && r.resumo.negativosB == |r.negativosB|
    ensures r.resumo.repetidasA == |r.repetidasA| && r.resumo.repetidasB == |r.repetidasB|
    ensures r.resumo.notaDiasA == |r.notaDiasA| && r.resumo.notaDiasB == |r.notaDiasB|
    ensures r.resumo.soEmA == |r.soEmA| && r.resumo.soEmB == |r.soEmB|
    ensures r.resumo.datas == |r.datas| && r.resumo.tipos == |r.tipos| && r.resumo.valores == |r.valores|
    ensures r.resumo.duplicadasA <= r.resumo.totalA && r.resumo.negativosA <= r.resumo.totalA
    ensures r.resumo.repetidasA <= r.resumo.totalA && r.resumo.notaDiasA <= r.resumo.totalA
    ensures r.resumo.duplicadasB <= r.resumo.totalB && r.resumo.negativosB <= r.resumo.totalB
    ensures r.resumo.repetidasB <= r.resumo.totalB && r.resumo.notaDiasB <= r.resumo.totalB
    ensures (forall m :: m in merged ==> NonNegativeQuantities(m)) ==>
      r.resumo.soEmA <= r.resumo.valores && r.resumo.soEmB <= r.resumo.valores
  {
    var soEmA := OnlyInA(merged);
    var soEmB := OnlyInB(merged);
    var valores := ValueDivergencesAsWritten(merged);
    PresenceBoundedWhenNonNegative(merged);
    Analysis(
      dfA, dfB,
      Duplicates(dfA), Duplicates(dfB),
      Negatives(dfA), Negatives(dfB),
      SameDayRepeats(dfA), SameDayRepeats(dfB),
      ManyDays(dfA), ManyDays(dfB),
      merged, soEmA, soEmB,
      DateDivergences(merged), TypeDivergences(merged), valores,
      Resumo(
        |dfA|, |dfB|,
        Litres(dfA), Litres(dfB),
        SumByFuel(dfA, Gasolina), SumByFuel(dfB, Gasolina),
        SumByFuel(dfA, Diesel), SumByFuel(dfB, Diesel),
        |Duplicates(dfA)|, |Duplicates(dfB)|,
        |Negatives(dfA)|, |Negatives(dfB)|,
        |SameDayRepeats(dfA)|, |SameDayRepeats(dfB)|,
        |ManyDays(dfA)|, |ManyDays(dfB)|,
        |soEmA|, |soEmB|,
        |DateDivergences(merged)|, |TypeDivergences(merged)|, |valores|))
  }

  lemma PresenceBoundedWhenNonNegative(merged: seq<Merged>)
    ensures (forall m :: m in merged ==> NonNegativeQuantities(m)) ==>
      |OnlyInA(merged)| <= |ValueDivergencesAsWritten(merged)| && |OnlyInB(merged)| <= |ValueDivergencesAsWritten(merged)|
  {
    if forall m :: m in merged ==> NonNegativeQuantities(m) {
      PresenceWithinValueDivergences(merged);
    }
  }

  /** One table's preparation: the sector filter, then the code, quantity and date coercion. */
  function Prepare(rows: seq<CanonRow>, setor: string): (r: Table)
    ensures r == CoerceAll(SectorFilter(rows, setor))
    ensures |r| <= |rows|
    ensures AllSectors(setor) ==> |r| == |rows|
    ensures !AllSectors(setor) ==> forall x :: x in r ==> Upper(AsText(x.sector)) == Upper(setor)
    ensures forall x :: x in r ==> |x.code| >= CodeWidth
  {
    var kept := SectorFilter(rows, setor);
    CoercedCodesArePadded(kept);
    FilteredSectorsMatch(rows, setor);
    CoerceAll(kept)
  }

  lemma FilteredSectorsMatch(rows: seq<CanonRow>, setor: string)
    ensures !AllSectors(setor) ==>
      forall x :: x in CoerceAll(SectorFilter(rows, setor)) ==> Upper(AsText(x.sector)) == Upper(setor)
  {
    if !AllSectors(setor) {
      var kept := SectorFilter(rows, setor);
      assert forall c :: c in kept ==> SectorMatches(c, setor);
      CoercedSectorsMatch(kept, setor);
    }
  }

  /** Coercion keeps the sector cell, so rows that all match a sector still match it. */
  lemma CoercedSectorsMatch(kept: seq<CanonRow>, setor: string)
    requires forall c :: c in kept ==> SectorMatches(c, setor)
    ensures forall x :: x in CoerceAll(kept) ==> Upper(AsText(x.sector)) == Upper(setor)
  {
    var r := CoerceAll(kept);
    forall x | x in r ensures Upper(AsText(x.sector)) == Upper(setor) {
      var i :| 0 <= i < |r| && r[i] == x;
      assert x.sector == kept[i].setor;
      assert kept[i] in kept;
    }
  }

  /** The pipeline after normalisation: preparation, the checks and the merge. */
  function Analyse(rowsA: seq<CanonRow>, rowsB: seq<CanonRow>, setor: string): (r: Analysis)
    ensures r.dfA == Prepare(rowsA, setor) && r.dfB == Prepare(rowsB, setor)
    ensures r.merged == OuterJoin(r.dfA, r.dfB)
    ensures r == Summarize(r.dfA, r.dfB, r.merged)
    ensures r.resumo.totalA <= |rowsA|
    ensures r.resumo.totalB <= |rowsB|
  {
    var dfA := Prepare(rowsA, setor);
    var dfB := Prepare(rowsB, setor);
    var merged := OuterJoin(dfA, dfB);
    Summarize(dfA, dfB, merged)
  }

  /** With every sector selected, the totals count every row of both tables. */
  lemma AnalyseKeepsEveryRow(rowsA: seq<CanonRow>, rowsB: seq<CanonRow>, setor: string)
    ensures AllSectors(setor) ==>
      Analyse(rowsA, rowsB, setor).resumo.totalA == |rowsA| && Analyse(rowsA, rowsB, setor).resumo.totalB == |rowsB|
  {
  }

  /** `analisar(df_a, df_b, setor)`: fails exactly when renaming leaves a canonical column that
      is read twice in either table (SETOR is read only under a sector filter); otherwise the
      analysis of the two normalised tables. */
  function Analisar(a: RawTable, b: RawTable, setor: string): (r: Result<Analysis, SchemaError>)
    requires Rectangular(a) && Rectangular(b)
    ensures r.Failure? <==>
      AnyBroken(Renamed(a.columns), !AllSectors(setor)) || AnyBroken(Renamed(b.columns), !AllSectors(setor))
    ensures r.Success? ==>
      && Normalize(a, !AllSectors(setor)).Success? && Normalize(b, !AllSectors(setor)).Success?
      && r.value == Analyse(Normalize(a, !AllSectors(setor)).value, Normalize(b, !AllSectors(setor)).value, setor)
    ensures r.Success? ==> r.value.resumo.totalA <= |a.rows| && r.value.resumo.totalB <= |b.rows|
  {
    var filtering := !AllSectors(setor);
    match Normalize(a, filtering)
    case Failure(e) => Failure(e)
    case Success(rowsA) =>
      match Normalize(b, filtering)
      case Failure(e) => Failure(e)
      case Success(rowsB) =>
        Success(Analyse(rowsA, rowsB, setor))
  }

  /** With every sector selected, a successful `analisar` counts every row of both sheets. */
  lemma AnalisarKeepsEveryRow(a: RawTable, b: RawTable, setor: string)
    requires Rectangular(a) && Rectangular(b)
    ensures Analisar(a, b, setor).Success? && AllSectors(setor) ==>
      Analisar(a, b, setor).value.resumo.totalA == |a.rows| && Analisar(a, b, setor).value.resumo.totalB == |b.rows|
  {
    if Analisar(a, b, setor).Success? {
      AnalyseKeepsEveryRow(Normalize(a, !AllSectors(setor)).value, Normalize(b, !AllSectors(setor)).value, setor);
    }
  }
}
