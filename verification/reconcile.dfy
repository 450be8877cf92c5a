/**
  Cross-table checks of app.py (`analisar`, lines 102-121).  All of them run over
  the whole merged table, so rows present on one side only take part in the date,
  type and value checks too.
 */
module Reconcile {
  import opened Options
  import opened Cells
  import opened Seqs
  import opened Records
  import opened Join

  // ----- columns of a merged row (NaN / NaT for an absent side) -----

  function QtyA(m: Merged): Option<real> {
    if m.a.Some? then m.a.value.qty else None
  }

  function QtyB(m: Merged): Option<real> {
    if m.b.Some? then m.b.value.qty else None
  }

  function DateA(m: Merged): Option<Stamp> {
    if m.a.Some? then m.a.value.date else None
  }

  function DateB(m: Merged): Option<Stamp> {
    if m.b.Some? then m.b.value.date else None
  }

  function FuelA(m: Merged): Cell {
    if m.a.Some? then m.a.value.fuel else Missing
  }

  function FuelB(m: Merged): Cell {
    if m.b.Some? then m.b.value.fuel else Missing
  }

  // ----- presence -----

  /** `merged[merged["VALOR_B"].isnull()]`. */
  function OnlyInA(merged: seq<Merged>): (r: seq<Merged>)
    ensures SubseqOf(r, merged)
    ensures forall m :: m in r <==> m in merged && QtyB(m).None?
    ensures forall m :: multiset(r)[m] == if QtyB(m).None? then multiset(merged)[m] else 0
  {
    Filter(merged, (m: Merged) => QtyB(m).None?)
  }

  /** `merged[merged["VALOR_A"].isnull()]`. */
  function OnlyInB(merged: seq<Merged>): (r: seq<Merged>)
    ensures SubseqOf(r, merged)
    ensures forall m :: m in r <==> m in merged && QtyA(m).None?
    ensures forall m :: multiset(r)[m] == if QtyA(m).None? then multiset(merged)[m] else 0
  {
    Filter(merged, (m: Merged) => QtyA(m).None?)
  }

  /** An A row whose code B lacks is reported as only in A; so is an A row paired with a B row
      whose quantity did not parse. */
  lemma OnlyInACoversUnmatched(a: Table, b: Table, x: Record)
    requires x in a
    ensures !HasCode(b, x.code) ==> Merged(x.code, Some(x), None) in OnlyInA(OuterJoin(a, b))
    ensures forall y :: y in b && y.code == x.code && y.qty.None? ==>
      Merged(x.code, Some(x), Some(y)) in OnlyInA(OuterJoin(a, b))
  {
    if !HasCode(b, x.code) {
      OuterJoinKeepsLeftOnly(a, b, x);
    }
    forall y | y in b && y.code == x.code && y.qty.None?
      ensures Merged(x.code, Some(x), Some(y)) in OnlyInA(OuterJoin(a, b))
    {
      OuterJoinPairsMatches(a, b, x, y);
    }
  }

  /** Conversely, every row reported as only in A is either an A row whose code B lacks, or a
      pairing with a B row whose quantity is absent (a B-only row with an absent quantity is
      one such pairing, so it is reported as only in A as well). */
  lemma OnlyInAComesFrom(a: Table, b: Table)
    ensures forall m :: m in OnlyInA(OuterJoin(a, b)) ==>
      || (m.a.Some? && m.a.value in a && m.b.None? && !HasCode(b, m.code))
      || (m.b.Some? && m.b.value in b && m.b.value.qty.None?)
  {
    OuterJoinWellPaired(a, b);
  }

  /** The two presence findings overlap in exactly the merged rows with no quantity on
      either side. */
  lemma OnlyInBothIffNoQuantity(merged: seq<Merged>, m: Merged)
    ensures m in OnlyInA(merged) && m in OnlyInB(merged) <==> m in merged && QtyA(m).None? && QtyB(m).None?
  {
  }

  // ----- dates -----

  /** `DATA_A_PARSED != DATA_B_PARSED` on timestamps: NaT differs from everything, NaT included,
      and present timestamps compare with their time of day. */
  predicate DatesDiffer(x: Option<Stamp>, y: Option<Stamp>) {
    x.None? || y.None? || x.value != y.value
  }

  function DateDivergences(merged: seq<Merged>): (r: seq<Merged>)
    ensures SubseqOf(r, merged)
    ensures forall m :: m in r <==> m in merged && DatesDiffer(DateA(m), DateB(m))
    ensures forall m :: multiset(r)[m] == if DatesDiffer(DateA(m), DateB(m)) then multiset(merged)[m] else 0
  {
    Filter(merged, (m: Merged) => DatesDiffer(DateA(m), DateB(m)))
  }

  /** A missing or unparsable date on either side is always a date divergence; equal present
      dates never are. */
  lemma DateDivergenceCases(merged: seq<Merged>, m: Merged)
    requires m in merged
    ensures DateA(m).None? || DateB(m).None? ==> m in DateDivergences(merged)
    ensures DateA(m).Some? && DateA(m) == DateB(m) ==> m !in DateDivergences(merged)
  {
  }

  // ----- fuel types -----

  /** `TIPO_A.astype(str) != TIPO_B.astype(str)` and not both NaN. */
  predicate TypesDiffer(x: Cell, y: Cell) {
    AsText(x) != AsText(y) && (!IsNa(x) || !IsNa(y))
  }

  function TypeDivergences(merged: seq<Merged>): (r: seq<Merged>)
    ensures SubseqOf(r, merged)
    ensures forall m :: m in r <==> m in merged && TypesDiffer(FuelA(m), FuelB(m))
    ensures forall m :: multiset(r)[m] == if TypesDiffer(FuelA(m), FuelB(m)) then multiset(merged)[m] else 0
  {
    Filter(merged, (m: Merged) => TypesDiffer(FuelA(m), FuelB(m)))
  }

  /** Two blank types are never a type divergence; a blank against a type whose text is not
      "nan" always is. */
  lemma TypeDivergenceCases(merged: seq<Merged>, m: Merged)
    requires m in merged
    ensures IsNa(FuelA(m)) && IsNa(FuelB(m)) ==> m !in TypeDivergences(merged)
    ensures IsNa(FuelA(m)) && AsText(FuelB(m)) != "nan" ==> m in TypeDivergences(merged)
    ensures IsNa(FuelB(m)) && AsText(FuelA(m)) != "nan" ==> m in TypeDivergences(merged)
  {
  }

  // ----- quantities -----

  /** numpy's default tolerances for `isclose`. */
  const RelTol: real := 0.00001
  const AbsTol: real := 0.00000001

  function Abs(x: real): real {
    if x < 0.0 then -x else x
  }

  /** `np.isclose(x, y)`: |x - y| <= atol + rtol * |y| (not symmetric in x and y). */
  predicate IsClose(x: real, y: real) {
    Abs(x - y) <= AbsTol + RelTol * Abs(y)
  }

  lemma IsCloseReflexive(x: real)
    ensures IsClose(x, x)
  {
  }

  /** The fill values `fillna(-999999)` and `fillna(-888888)` substitute for NaN. */
  const FillA: real := -999999.0
  const FillB: real := -888888.0

  /** The value test as app.py writes it: absent quantities replaced by the fill values, then
      `~np.isclose`. */
  predicate ValuesDifferAsWritten(m: Merged) {
    !IsClose(QtyA(m).GetOr(FillA), QtyB(m).GetOr(FillB))
  }

  function ValueDivergencesAsWritten(merged: seq<Merged>): (r: seq<Merged>)
    ensures SubseqOf(r, merged)
    ensures forall m :: m in r <==> m in merged && ValuesDifferAsWritten(m)
    ensures forall m :: multiset(r)[m] == if ValuesDifferAsWritten(m) then multiset(merged)[m] else 0
  {
    Filter(merged, ValuesDifferAsWritten)
  }

  /** The fill values leak into the comparison: a row absent on the A side whose B quantity is
      -999999 compares "close" to the fill and is not reported. */
  lemma FillValueHidesAbsentQuantity()
    ensures var m := Merged("0001", None, Some(Record(None, "0001", Missing, Some(-999999.0), Missing)));
      QtyA(m).None? && !ValuesDifferAsWritten(m)
  {
  }

  /** The value test with absence handled explicitly: an absent quantity on either side is
      always a divergence, two present quantities diverge when they are not `isclose`. */
  predicate ValuesDiffer(m: Merged) {
    QtyA(m).None? || QtyB(m).None? || !IsClose(QtyA(m).value, QtyB(m).value)
  }

  function ValueDivergences(merged: seq<Merged>): (r: seq<Merged>)
    ensures SubseqOf(r, merged)
    ensures forall m :: m in r <==> m in merged && ValuesDiffer(m)
    ensures forall m :: multiset(r)[m] == if ValuesDiffer(m) then multiset(merged)[m] else 0
  {
    Filter(merged, ValuesDiffer)
  }

  /** Any absent quantity is a value divergence; equal present quantities never are. */
  lemma ValueDivergenceCases(merged: seq<Merged>, m: Merged)
    requires m in merged
    ensures QtyA(m).None? || QtyB(m).None? ==> m in ValueDivergences(merged)
    ensures QtyA(m).Some? && QtyA(m) == QtyB(m) ==> m !in ValueDivergences(merged)
  {
    if QtyA(m).Some? && QtyA(m) == QtyB(m) {
      IsCloseReflexive(QtyA(m).value);
    }
  }

  /** No present quantity of the row is negative. */
  predicate NonNegativeQuantities(m: Merged) {
    (QtyA(m).Some? ==> QtyA(m).value >= 0.0) && (QtyB(m).Some? ==> QtyB(m).value >= 0.0)
  }

  /** Both value tests agree on every row whose present quantities are not negative (litres
      read as litres), and on every row with both quantities present. */
  lemma FillValuesHarmlessForNonNegative(m: Merged)
    requires NonNegativeQuantities(m)
    ensures ValuesDifferAsWritten(m) <==> ValuesDiffer(m)
  {
  }

  lemma FillValuesHarmlessWhenPresent(m: Merged)
    requires QtyA(m).Some? && QtyB(m).Some?
    ensures ValuesDifferAsWritten(m) <==> ValuesDiffer(m)
  {
  }

  /** Because the checks run on the whole merged table, a row with one side absent is always
      reported as a date divergence, on top of its presence finding. It is a type divergence
      whenever its one type does not read "nan". The fill-value test reports it as a value
      divergence too unless its one quantity is negative and close to the fill value; the
      corrected test always does. */
  lemma OneSidedRowsDiverge(merged: seq<Merged>, m: Merged)
    requires m in merged && (m.a.None? || m.b.None?)
    ensures m in DateDivergences(merged)
    ensures m in OnlyInA(merged) || m in OnlyInB(merged)
    ensures NonNegativeQuantities(m) ==> m in ValueDivergencesAsWritten(merged)
    ensures m.a.None? && QtyB(m).Some? ==>
      (m in ValueDivergencesAsWritten(merged) <==> !IsClose(FillA, QtyB(m).value))
    ensures m.b.None? && QtyA(m).Some? ==>
      (m in ValueDivergencesAsWritten(merged) <==> !IsClose(QtyA(m).value, FillB))
    ensures m in ValueDivergences(merged)
    ensures m.b.None? ==> (m in TypeDivergences(merged) <==> AsText(FuelA(m)) != "nan")
    ensures m.a.None? ==> (m in TypeDivergences(merged) <==> AsText(FuelB(m)) != "nan")
  {
    OneSidedTypes(merged, m);
    if NonNegativeQuantities(m) {
      FillValuesHarmlessForNonNegative(m);
    }
  }

  /** A one-sided row compares its one type with the "nan" text of the absent side. */
  lemma OneSidedTypes(merged: seq<Merged>, m: Merged)
    requires m in merged
    ensures m.b.None? ==> (m in TypeDivergences(merged) <==> AsText(FuelA(m)) != "nan")
    ensures m.a.None? ==> (m in TypeDivergences(merged) <==> AsText(FuelB(m)) != "nan")
  {
  }

  /** When no quantity is negative, the rows reported as missing from either side are among the
      value divergences of app.py, so neither presence count exceeds the value count. */
  lemma PresenceWithinValueDivergences(merged: seq<Merged>)
    requires forall m :: m in merged ==> NonNegativeQuantities(m)
    ensures |OnlyInA(merged)| <= |ValueDivergencesAsWritten(merged)|
    ensures |OnlyInB(merged)| <= |ValueDivergencesAsWritten(merged)|
  {
    forall m | m in merged ensures ValuesDifferAsWritten(m) <==> ValuesDiffer(m) {
      FillValuesHarmlessForNonNegative(m);
    }
    FilterMonotone(merged, (m: Merged) => QtyB(m).None?, ValuesDifferAsWritten);
    FilterMonotone(merged, (m: Merged) => QtyA(m).None?, ValuesDifferAsWritten);
  }
}
