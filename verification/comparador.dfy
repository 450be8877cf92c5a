/**
  The stand-alone comparison script (comparador_de_notas.py): fixed column names,
  codes padded to four characters, the outer merge on the code, then presence,
  date, fuel-type and quantity findings. Unlike app.py, the date, type and
  quantity checks look only at the merged rows with a quantity on both sides.
 */
module Comparador {
  import opened Options
  import opened Cells
  import opened Seqs
  import opened Schema
  import opened Records
  import opened Join
  import opened Reconcile

  /** The text `formatar_data` puts in place of a missing or unparsable date. */
  const InvalidDate: string := "Data Inv\U{00E1}lida/Nula"

  /** `formatar_data` on one value: "%d/%m/%Y" for a readable date, the marker otherwise.
      The marker never collides with a formatted date, and a formatted date reads back as
      its calendar day. */
  function FormatarData(d: Option<Stamp>): (r: string)
    ensures r == InvalidDate <==> d.None?
    ensures d.Some? ==> ParseDay(r) == Some(DayOf(d.value))
  {
    if d.None? then InvalidDate
    else
      FormatThenParse(d.value);
      FormatDay(d.value)
  }

  /** Two values print the same exactly when they fall on the same calendar day or are
      both unreadable. */
  lemma FormatarDataEq(a: Option<Stamp>, b: Option<Stamp>)
    ensures FormatarData(a) == FormatarData(b) <==> SameDay(a, b)
  {
    if a.Some? && b.Some? {
      FormatDayInjective(a.value, b.value);
    }
  }

  // ----- findings -----

  /** `df_merged.dropna(subset=[Litragem_A, Litragem_B])`. */
  predicate BothQuantities(m: Merged) {
    QtyA(m).Some? && QtyB(m).Some?
  }

  function Comum(merged: seq<Merged>): (r: seq<Merged>)
    ensures SubseqOf(r, merged)
    ensures forall m :: m in r <==> m in merged && BothQuantities(m)
    ensures forall m :: multiset(r)[m] == if BothQuantities(m) then multiset(merged)[m] else 0
  {
    Filter(merged, BothQuantities)
  }

  predicate BothAbsent(m: Merged) {
    QtyA(m).None? && QtyB(m).None?
  }

  /** `df_comum[Data_A != Data_B]`. */
  function DatasErradas(merged: seq<Merged>): (r: seq<Merged>)
    ensures SubseqOf(r, Comum(merged))
    ensures forall m :: m in r <==> m in merged && BothQuantities(m) && DatesDiffer(DateA(m), DateB(m))
    ensures forall m :: multiset(r)[m] == if BothQuantities(m) && DatesDiffer(DateA(m), DateB(m)) then multiset(merged)[m] else 0
  {
    Filter(Comum(merged), (m: Merged) => DatesDiffer(DateA(m), DateB(m)))
  }

  /** `!=` on the raw type column: a blank (NaN) differs from everything, itself included.
      Present values are compared by their text. */
  predicate CellsDiffer(x: Cell, y: Cell) {
    x.Missing? || y.Missing? || x.text != y.text
  }

  function TiposTrocados(merged: seq<Merged>): (r: seq<Merged>)
    ensures SubseqOf(r, Comum(merged))
    ensures forall m :: m in r <==> m in merged && BothQuantities(m) && CellsDiffer(FuelA(m), FuelB(m))
    ensures forall m :: multiset(r)[m] == if BothQuantities(m) && CellsDiffer(FuelA(m), FuelB(m)) then multiset(merged)[m] else 0
  {
    Filter(Comum(merged), (m: Merged) => CellsDiffer(FuelA(m), FuelB(m)))
  }

  predicate QuantitiesDiverge(m: Merged) {
    BothQuantities(m) && !IsClose(QtyA(m).value, QtyB(m).value)
  }

  /** `df_comum[~np.isclose(Litragem_A, Litragem_B)]`. */
  function ValoresErrados(merged: seq<Merged>): (r: seq<Merged>)
    ensures SubseqOf(r, Comum(merged))
    ensures forall m :: m in r <==> m in merged && QuantitiesDiverge(m)
    ensures forall m :: multiset(r)[m] == if QuantitiesDiverge(m) then multiset(merged)[m] else 0
  {
    Filter(Comum(merged), QuantitiesDiverge)
  }

  /** Everything the script reports. */
  datatype Report = Report(
    merged: seq<Merged>,
    apenasA: seq<Merged>, apenasB: seq<Merged>,
    comum: seq<Merged>,
    datas: seq<Merged>, tipos: seq<Merged>, valores: seq<Merged>)

  /** `comparar_planilhas` on two tables already read under the fixed column names. */
  function CompararPlanilhas(a: seq<CanonRow>, b: seq<CanonRow>): (r: Report)
    ensures r.merged == OuterJoin(CoerceAll(a), CoerceAll(b))
    ensures r.apenasA == OnlyInA(r.merged) && r.apenasB == OnlyInB(r.merged) && r.comum == Comum(r.merged)
    ensures r.datas == DatasErradas(r.merged) && r.tipos == TiposTrocados(r.merged)
    ensures r.valores == ValoresErrados(r.merged)
    ensures |r.apenasA| + |r.apenasB| + |r.comum| == |r.merged| + |Filter(r.merged, BothAbsent)|
    ensures forall m :: m in r.merged ==> WellPaired(CoerceAll(a), CoerceAll(b), m)
    ensures forall m :: m in r.datas + r.tipos + r.valores ==> m in r.comum
    ensures forall m :: m in r.comum ==> m !in r.apenasA && m !in r.apenasB
  {
    var ta := CoerceAll(a);
    var tb := CoerceAll(b);
    var merged := OuterJoin(ta, tb);
    OuterJoinWellPaired(ta, tb);
    ComumPartition(merged);
    Report(merged, OnlyInA(merged), OnlyInB(merged), Comum(merged),
      DatasErradas(merged), TiposTrocados(merged), ValoresErrados(merged))
  }

  /** Every merged row is reported in exactly one of: only in A, only in B, common — except
      rows with no quantity on either side, which are reported as missing from both. */
  lemma {:induction false} ComumPartition(merged: seq<Merged>)
    ensures |OnlyInA(merged)| + |OnlyInB(merged)| + |Comum(merged)| == |merged| + |Filter(merged, BothAbsent)|
    decreases |merged|
  {
    if |merged| > 0 {
      var m := merged[0];
      var rest := merged[1..];
      ComumPartition(rest);
      assert |OnlyInA(merged)| == (if QtyB(m).None? then 1 else 0) + |OnlyInA(rest)|;
      assert |OnlyInB(merged)| == (if QtyA(m).None? then 1 else 0) + |OnlyInB(rest)|;
      assert |Comum(merged)| == (if BothQuantities(m) then 1 else 0) + |Comum(rest)|;
      assert |Filter(merged, BothAbsent)| == (if BothAbsent(m) then 1 else 0) + |Filter(rest, BothAbsent)|;
    }
  }

  // ----- relation to the checks of app.py -----

  /** On common rows the script and app.py agree on dates and quantities. The script never
      reports a row missing a quantity; app.py, comparing against its fill values, reports
      such a row as a quantity divergence whenever its quantities are non-negative, and the
      corrected test always does. */
  lemma AgreesWithAppOnCommonRows(merged: seq<Merged>, m: Merged)
    requires m in merged
    ensures BothQuantities(m) ==> (m in DatasErradas(merged) <==> m in DateDivergences(merged))
    ensures BothQuantities(m) ==> (m in ValoresErrados(merged) <==> m in ValueDivergencesAsWritten(merged))
    ensures BothQuantities(m) ==> (m in ValoresErrados(merged) <==> m in ValueDivergences(merged))
    ensures !BothQuantities(m) ==> m !in ValoresErrados(merged)
    ensures !BothQuantities(m) && NonNegativeQuantities(m) ==> m in ValueDivergencesAsWritten(merged)
    ensures !BothQuantities(m) ==> m in ValueDivergences(merged)
  {
    if BothQuantities(m) {
      FillValuesHarmlessWhenPresent(m);
    } else if NonNegativeQuantities(m) {
      FillValuesHarmlessForNonNegative(m);
    }
  }

  /** Two blank fuel types on a common row: the script reports a type divergence, app.py
      does not. */
  lemma BlankTypesContrast(merged: seq<Merged>, m: Merged)
    requires m in merged && BothQuantities(m)
    requires FuelA(m).Missing? && FuelB(m).Missing?
    ensures m in TiposTrocados(merged)
    ensures m !in TypeDivergences(merged)
  {
  }
}
