/**
  The typed purchase record the analysis works on (app.py `analisar`, lines 62-73):
  the optional sector pre-filter on the raw canonical rows, then the coercions
  that zero-pad the receipt code and parse the quantity and the date.
 */
module Records {
  import opened Options
  import opened Text
  import opened Cells
  import opened Seqs
  import opened Schema

  /** Width receipt codes are zero-padded to. */
  const CodeWidth: nat := 4

  /** One fuel purchase after coercion: DATA_PARSED, NOTA, TIPO, VALOR and SETOR. */
  datatype Record = Record(date: Option<Stamp>, code: string, fuel: Cell, qty: Option<real>, sector: Cell)

  type Table = seq<Record>

  /** `NOTA.astype(str).str.zfill(4)`, `pd.to_numeric(VALOR)`, `pd.to_datetime(DATA)`;
      TIPO and SETOR are kept as read. The code is the text of NOTA, left as is when it is
      four characters or longer, otherwise preceded by zeros (after its sign, if any). */
  function Coerce(c: CanonRow): (r: Record)
    ensures var t := AsText(c.nota);
      && (|t| >= CodeWidth ==> r.code == t)
      && (|t| < CodeWidth ==> |r.code| == CodeWidth)
      && (|t| < CodeWidth && (|t| == 0 || !IsSign(t[0])) ==>
            r.code[CodeWidth - |t|..] == t && forall i :: 0 <= i < CodeWidth - |t| ==> r.code[i] == '0')
      && (|t| < CodeWidth && |t| > 0 && IsSign(t[0]) ==>
            && r.code[0] == t[0] && r.code[CodeWidth - |t| + 1..] == t[1..]
            && forall i :: 1 <= i <= CodeWidth - |t| ==> r.code[i] == '0')
    ensures |r.code| >= CodeWidth && ZFill(r.code, CodeWidth) == r.code
    ensures r.fuel == c.tipo && r.sector == c.setor
    ensures c.valor.Missing? ==> r.qty.None?
    ensures c.valor.Filled? ==> r.qty == c.valor.number
    ensures c.data.Missing? ==> r.date.None?
    ensures c.data.Filled? ==> r.date == c.data.stamp
  {
    ZFillShape(AsText(c.nota), CodeWidth);
    ZFillIdempotent(AsText(c.nota), CodeWidth);
    Record(ToDatetime(c.data), ZFill(AsText(c.nota), CodeWidth), c.tipo, ToNumeric(c.valor), c.setor)
  }

  function CoerceAll(rows: seq<CanonRow>): (r: Table)
    ensures |r| == |rows|
    ensures forall i :: 0 <= i < |rows| ==> r[i] == Coerce(rows[i])
  {
    seq(|rows|, i requires 0 <= i < |rows| => Coerce(rows[i]))
  }

  /** After coercion every code is at least four characters long and is left alone by a
      further padding, so keys padded on one side match keys padded on the other. */
  lemma CoercedCodesArePadded(rows: seq<CanonRow>)
    ensures forall r :: r in CoerceAll(rows) ==> |r.code| >= CodeWidth && ZFill(r.code, CodeWidth) == r.code
  {
    forall r | r in CoerceAll(rows)
      ensures |r.code| >= CodeWidth && ZFill(r.code, CodeWidth) == r.code
    {
      var i :| 0 <= i < |rows| && CoerceAll(rows)[i] == r;
      ZFillIdempotent(AsText(rows[i].nota), CodeWidth);
    }
  }

  /** An empty cell reaches the join as the code "0nan": rows without a receipt code all share
      one key. */
  lemma MissingCodeIsPaddedNan(c: CanonRow)
    requires c.nota.Missing?
    ensures Coerce(c).code == "0nan"
  {
    assert ZFill("nan", CodeWidth) == Zeros(1) + "nan";
  }

  // ----- sector filter -----

  /** No filter was chosen: the selector's empty value or its "Todos" (all) entry. */
  predicate AllSectors(setor: string) {
    setor == "" || setor == "Todos"
  }

  predicate SectorMatches(c: CanonRow, setor: string) {
    Upper(AsText(c.setor)) == Upper(setor)
  }

  /** `df[df["SETOR"].astype(str).str.upper() == setor.upper()]` unless no filter was chosen. */
  function SectorFilter(rows: seq<CanonRow>, setor: string): (r: seq<CanonRow>)
    ensures AllSectors(setor) ==> r == rows
    ensures !AllSectors(setor) ==> forall c :: c in r <==> c in rows && SectorMatches(c, setor)
    ensures !AllSectors(setor) ==>
      forall c :: multiset(r)[c] == if SectorMatches(c, setor) then multiset(rows)[c] else 0
    ensures SubseqOf(r, rows)
  {
    if AllSectors(setor) then
      SubseqOfSelf(rows);
      rows
    else Filter(rows, c => SectorMatches(c, setor))
  }

  lemma {:induction false} SubseqOfSelf<T>(s: seq<T>)
    ensures SubseqOf(s, s)
    decreases |s|
  {
    if |s| > 0 {
      SubseqOfSelf(s[1..]);
    }
  }

  /** The sector test is a case-insensitive comparison: it holds exactly when the sector text
      and the filter agree after lower-casing too. */
  lemma SectorFilterIsCaseInsensitive(rows: seq<CanonRow>, setor: string)
    requires !AllSectors(setor)
    ensures forall c :: c in SectorFilter(rows, setor) <==>
      c in rows && Lower(AsText(c.setor)) == Lower(setor)
  {
    forall c ensures SectorMatches(c, setor) <==> Lower(AsText(c.setor)) == Lower(setor) {
      CaseFoldAgree(AsText(c.setor), setor);
    }
  }

  /** Applying the same sector filter again removes nothing more. */
  lemma SectorFilterIdempotent(rows: seq<CanonRow>, setor: string)
    ensures SectorFilter(SectorFilter(rows, setor), setor) == SectorFilter(rows, setor)
  {
    if !AllSectors(setor) {
      FilterIdempotent(rows, c => SectorMatches(c, setor));
    }
  }

  /** A row with an empty sector cell reads as "nan" and survives exactly the filter "nan"
      (in any case). */
  lemma MissingSectorMatchesNan(c: CanonRow, setor: string)
    requires c.setor.Missing?
    ensures SectorMatches(c, setor) <==> Upper(setor) == "NAN"
  {
    assert Upper("nan") == "NAN";
  }
}
