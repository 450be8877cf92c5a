/**
  Anomaly checks run on one table at a time (app.py `analisar`, lines 77-100):
  repeated receipt codes, negative quantities, purchases repeated on the same day
  and receipt codes used on several days.  Each result is a boolean-mask filter of
  the table, so every finding keeps the table's row order.
 */
module Checks {
  import opened Options
  import opened Cells
  import opened Seqs
  import opened Records

  function Codes(t: Table): (r: seq<string>)
    ensures |r| == |t| && forall i :: 0 <= i < |t| ==> r[i] == t[i].code
  {
    seq(|t|, i requires 0 <= i < |t| => t[i].code)
  }

  /** Some other row of `t` carries the code of row `i`. */
  predicate CodeRepeated(t: Table, i: int)
    requires 0 <= i < |t|
  {
    exists j :: 0 <= j < |t| && j != i && t[j].code == t[i].code
  }

  /** `df[df["NOTA"].duplicated(keep=False)]`: every row whose code occurs at least twice. */
  function Duplicates(t: Table): (r: Table)
    ensures SubseqOf(r, t)
    ensures forall i :: 0 <= i < |t| ==> (t[i] in r <==> CodeRepeated(t, i))
    ensures forall x :: multiset(r)[x] == if multiset(Codes(t))[x.code] >= 2 then multiset(t)[x] else 0
  {
    var codes := Codes(t);
    forall i | 0 <= i < |t| ensures multiset(codes)[t[i].code] >= 2 <==> CodeRepeated(t, i) {
      MultiplicityAtLeastTwo(codes, i);
    }
    RepeatedCodeRows(t)
  }

  /** The mask `duplicated(keep=False)` computes: the code's multiplicity is at least two. */
  function RepeatedCodeRows(t: Table): (r: Table)
    ensures SubseqOf(r, t)
    ensures forall x :: x in r <==> x in t && multiset(Codes(t))[x.code] >= 2
    ensures forall x :: multiset(r)[x] == if multiset(Codes(t))[x.code] >= 2 then multiset(t)[x] else 0
  {
    Filter(t, (x: Record) => multiset(Codes(t))[x.code] >= 2)
  }

  /** `df[df["VALOR"] < 0]`: NaN compares false, so only present negative quantities. */
  function Negatives(t: Table): (r: Table)
    ensures SubseqOf(r, t)
    ensures forall x :: x in r <==> x in t && x.qty.Some? && x.qty.value < 0.0
    ensures forall x :: multiset(r)[x] == if x.qty.Some? && x.qty.value < 0.0 then multiset(t)[x] else 0
  {
    Filter(t, (x: Record) => x.qty.Some? && x.qty.value < 0.0)
  }

  /** The (DATA_FMT, NOTA, VALOR) triple `rep_day` compares, DATA_FMT being the
      "%d/%m/%Y" rendering of the date (NaN for NaT). */
  function DayKey(x: Record): (Option<string>, string, Option<real>) {
    (FormatDayOpt(x.date), x.code, x.qty)
  }

  function DayKeys(t: Table): (r: seq<(Option<string>, string, Option<real>)>)
    ensures |r| == |t| && forall i :: 0 <= i < |t| ==> r[i] == DayKey(t[i])
  {
    seq(|t|, i requires 0 <= i < |t| => DayKey(t[i]))
  }

  /** Another row has the same code, the same quantity (absent matching absent) and falls on
      the same calendar day (no date matching no date). */
  predicate RepeatedSameDay(t: Table, i: int)
    requires 0 <= i < |t|
  {
    exists j :: 0 <= j < |t| && j != i && t[j].code == t[i].code && t[j].qty == t[i].qty
      && SameDay(t[j].date, t[i].date)
  }

  /** `rep_day`: `duplicated(subset=["DATA_FMT", "NOTA", "VALOR"], keep=False)`, where NaN
      equals NaN. */
  function SameDayRepeats(t: Table): (r: Table)
    ensures SubseqOf(r, t)
    ensures forall i :: 0 <= i < |t| ==> (t[i] in r <==> RepeatedSameDay(t, i))
    ensures forall x :: multiset(r)[x] == if multiset(DayKeys(t))[DayKey(x)] >= 2 then multiset(t)[x] else 0
  {
    var keys := DayKeys(t);
    forall i | 0 <= i < |t| ensures multiset(keys)[DayKey(t[i])] >= 2 <==> RepeatedSameDay(t, i) {
      MultiplicityAtLeastTwo(keys, i);
      forall j | 0 <= j < |t| ensures keys[j] == keys[i] <==>
        (t[j].code == t[i].code && t[j].qty == t[i].qty && SameDay(t[j].date, t[i].date))
      {
        FormatDayOptEq(t[j].date, t[i].date);
      }
    }
    RepeatedKeyRows(t)
  }

  /** The mask of `rep_day`: the row's (DATA_FMT, NOTA, VALOR) triple occurs at least twice. */
  function RepeatedKeyRows(t: Table): (r: Table)
    ensures SubseqOf(r, t)
    ensures forall x :: x in r <==> x in t && multiset(DayKeys(t))[DayKey(x)] >= 2
    ensures forall x :: multiset(r)[x] == if multiset(DayKeys(t))[DayKey(x)] >= 2 then multiset(t)[x] else 0
  {
    Filter(t, (x: Record) => multiset(DayKeys(t))[DayKey(x)] >= 2)
  }

  /** The distinct formatted dates of code `k` (`groupby("NOTA")["DATA_FMT"]`, NaN dropped). */
  function DaysOf(t: Table, k: string): set<string> {
    set x | x in t && x.code == k && x.date.Some? :: FormatDay(x.date.value)
  }

  /** Two rows with code `k` carry dates on different calendar days. */
  predicate CodeOnTwoDays(t: Table, k: string) {
    exists x, y :: x in t && y in t && x.code == k && y.code == k && x.date.Some? && y.date.Some?
      && DayOf(x.date.value) != DayOf(y.date.value)
  }

  lemma TwoDaysIffSeveralFormatted(t: Table, k: string)
    ensures |DaysOf(t, k)| > 1 <==> CodeOnTwoDays(t, k)
  {
    if |DaysOf(t, k)| > 1 {
      SeveralFormattedMeansTwoDays(t, k);
    }
    if CodeOnTwoDays(t, k) {
      TwoDaysMeansSeveralFormatted(t, k);
    }
  }

  lemma SeveralFormattedMeansTwoDays(t: Table, k: string)
    requires |DaysOf(t, k)| > 1
    ensures CodeOnTwoDays(t, k)
  {
    var s := DaysOf(t, k);
    var a :| a in s;
    assert |s - {a}| == |s| - 1;
    var b :| b in s - {a};
    var x :| x in t && x.code == k && x.date.Some? && FormatDay(x.date.value) == a;
    var y :| y in t && y.code == k && y.date.Some? && FormatDay(y.date.value) == b;
    FormatDayInjective(x.date.value, y.date.value);
  }

  lemma TwoDaysMeansSeveralFormatted(t: Table, k: string)
    requires CodeOnTwoDays(t, k)
    ensures |DaysOf(t, k)| > 1
  {
    var x, y :| x in t && y in t && x.code == k && y.code == k && x.date.Some? && y.date.Some?
      && DayOf(x.date.value) != DayOf(y.date.value);
    FormatDayInjective(x.date.value, y.date.value);
    var a, b := FormatDay(x.date.value), FormatDay(y.date.value);
    assert {a, b} <= DaysOf(t, k);
    assert |{a, b}| == 2;
    SubsetCard({a, b}, DaysOf(t, k));
  }

  lemma SubsetCard<T>(a: set<T>, b: set<T>)
    requires a <= b
    ensures |a| <= |b|
  {
    assert b == a + (b - a);
  }

  /** `many_days`: every row whose code has more than one distinct formatted date, i.e. whose
      code was used on two different calendar days. */
  function ManyDays(t: Table): (r: Table)
    ensures SubseqOf(r, t)
    ensures forall x :: x in r <==> x in t && CodeOnTwoDays(t, x.code)
    ensures forall x :: multiset(r)[x] == if CodeOnTwoDays(t, x.code) then multiset(t)[x] else 0
  {
    forall k ensures |DaysOf(t, k)| > 1 <==> CodeOnTwoDays(t, k) {
      TwoDaysIffSeveralFormatted(t, k);
    }
    Filter(t, (x: Record) => |DaysOf(t, x.code)| > 1)
  }
}
