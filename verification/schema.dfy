/**
  Schema binding (app.py `guess_column` and `normalize_df`): arbitrary spreadsheet
  headers are bound to the five canonical columns DATA, NOTA, TIPO, VALOR and SETOR
  through a fixed synonym table; canonical columns nobody binds are added empty.
 */
module Schema {
  import opened Options
  import opened Text
  import opened Cells
  import Seqs

  /** The canonical columns, in the order of the synonym table. */
  datatype Canon = DATA | NOTA | TIPO | VALOR | SETOR

  function Name(f: Canon): string {
    match f
    case DATA => "DATA"
    case NOTA => "NOTA"
    case TIPO => "TIPO"
    case VALOR => "VALOR"
    case SETOR => "SETOR"
  }

  /** The accepted header names per canonical column, in the order they are tried. */
  function Synonyms(f: Canon): seq<string> {
    match f
    case DATA => ["data", "Data"]
    case NOTA => ["numero_nota", "Numero_Nota", "nota"]
    case TIPO => ["tipo_combustivel", "Tipo_Combustivel", "combustivel", "Tipo"]
    case VALOR => ["litragem", "Litragem", "litros", "Valor"]
    case SETOR => ["setor", "Setor", "departamento", "secretaria"]
  }

  // ----- guess_column -----

  /** Column `j` equals key `i` up to case. */
  predicate ExactAt(cols: seq<string>, keys: seq<string>, i: int, j: int)
    requires 0 <= i < |keys| && 0 <= j < |cols|
  {
    Lower(cols[j]) == Lower(keys[i])
  }

  /** Column `j` contains key `i` up to case. */
  predicate HitAt(cols: seq<string>, keys: seq<string>, i: int, j: int)
    requires 0 <= i < |keys| && 0 <= j < |cols|
  {
    Contains(Lower(cols[j]), Lower(keys[i]))
  }

  predicate HasExact(cols: seq<string>, keys: seq<string>, i: int)
    requires 0 <= i < |keys|
  {
    exists j :: 0 <= j < |cols| && ExactAt(cols, keys, i, j)
  }

  predicate HasHit(cols: seq<string>, keys: seq<string>, i: int)
    requires 0 <= i < |keys|
  {
    exists j :: 0 <= j < |cols| && HitAt(cols, keys, i, j)
  }

  lemma ExactIsHit(cols: seq<string>, keys: seq<string>, i: int, j: int)
    requires 0 <= i < |keys| && 0 <= j < |cols|
    requires ExactAt(cols, keys, i, j)
    ensures HitAt(cols, keys, i, j)
  {
    assert StartsWith(Lower(cols[j]), Lower(keys[i]));
  }

  /** The last column whose lower-cased name is `lk`: the dictionary `{c.lower(): c}` keeps
      the last column written under each lower-cased name. */
  function LastLowerMatch(cols: seq<string>, lk: string): (r: Option<nat>)
    ensures r.Some? ==> r.value < |cols| && Lower(cols[r.value]) == lk
    ensures r.Some? ==> forall j :: r.value < j < |cols| ==> Lower(cols[j]) != lk
    ensures r.None? <==> forall j :: 0 <= j < |cols| ==> Lower(cols[j]) != lk
    decreases |cols|
  {
    if |cols| == 0 then None
    else if Lower(cols[|cols| - 1]) == lk then Some(|cols| - 1)
    else LastLowerMatch(cols[..|cols| - 1], lk)
  }

  /** Key `k` is the first key from index `from` on with an exact header, and `j` is the
      last header equal to it up to case. */
  predicate ExactChoice(cols: seq<string>, keys: seq<string>, from: int, k: int, j: int) {
    && 0 <= from <= k < |keys| && 0 <= j < |cols|
    && ExactAt(cols, keys, k, j)
    && (forall k' :: from <= k' < k ==> !HasExact(cols, keys, k'))
    && (forall j' :: j < j' < |cols| ==> !ExactAt(cols, keys, k, j'))
  }

  /** Key `k` is the first key from index `from` on contained in some header, and `j` is the
      first header containing it. */
  predicate HitChoice(cols: seq<string>, keys: seq<string>, from: int, k: int, j: int) {
    && 0 <= from <= k < |keys| && 0 <= j < |cols|
    && HitAt(cols, keys, k, j)
    && (forall k' :: from <= k' < k ==> !HasHit(cols, keys, k'))
    && (forall j' :: 0 <= j' < j ==> !HitAt(cols, keys, k, j'))
  }

  /** First stage of `guess_column`, from key `from` on. */
  function ExactFrom(cols: seq<string>, keys: seq<string>, from: nat): (r: Option<string>)
    requires from <= |keys|
    ensures r.None? <==> forall k :: from <= k < |keys| ==> !HasExact(cols, keys, k)
    ensures r.Some? ==> exists k, j :: ExactChoice(cols, keys, from, k, j) && r.value == cols[j]
    decreases |keys| - from
  {
    if from == |keys| then None
    else match LastLowerMatch(cols, Lower(keys[from]))
      case Some(j) =>
        assert ExactAt(cols, keys, from, j);
        assert ExactChoice(cols, keys, from, from, j);
        assert HasExact(cols, keys, from);
        Some(cols[j])
      case None =>
        assert !HasExact(cols, keys, from);
        var r := ExactFrom(cols, keys, from + 1);
        if r.Some? then
          var k, j :| ExactChoice(cols, keys, from + 1, k, j) && r.value == cols[j];
          assert ExactChoice(cols, keys, from, k, j);
          r
        else r
  }

  /** The first header (in column order) containing `lk`. */
  function FirstContaining(cols: seq<string>, lk: string): (r: Option<nat>)
    ensures r.Some? ==> r.value < |cols| && Contains(Lower(cols[r.value]), lk)
    ensures r.Some? ==> forall j :: 0 <= j < r.value ==> !Contains(Lower(cols[j]), lk)
    ensures r.None? <==> forall j :: 0 <= j < |cols| ==> !Contains(Lower(cols[j]), lk)
    decreases |cols|
  {
    if |cols| == 0 then None
    else if Contains(Lower(cols[0]), lk) then Some(0)
    else
      var r := FirstContaining(cols[1..], lk);
      if r.Some? then Some(r.value + 1) else None
  }

  /** Second stage of `guess_column`, from key `from` on. */
  function HitFrom(cols: seq<string>, keys: seq<string>, from: nat): (r: Option<string>)
    requires from <= |keys|
    ensures r.None? <==> forall k :: from <= k < |keys| ==> !HasHit(cols, keys, k)
    ensures r.Some? ==> exists k, j :: HitChoice(cols, keys, from, k, j) && r.value == cols[j]
    decreases |keys| - from
  {
    if from == |keys| then None
    else match FirstContaining(cols, Lower(keys[from]))
      case Some(j) =>
        assert HitAt(cols, keys, from, j);
        assert HitChoice(cols, keys, from, from, j);
        assert HasHit(cols, keys, from);
        Some(cols[j])
      case None =>
        assert !HasHit(cols, keys, from);
        var r := HitFrom(cols, keys, from + 1);
        if r.Some? then
          var k, j :| HitChoice(cols, keys, from + 1, k, j) && r.value == cols[j];
          assert HitChoice(cols, keys, from, k, j);
          r
        else r
  }

  /** `guess_column(df, keys)`: the answer is always one of the headers, and there is none
      exactly when no header contains any key up to case. */
  function GuessColumn(cols: seq<string>, keys: seq<string>): (r: Option<string>)
    ensures r.Some? ==> r.value in cols
    ensures r.None? <==> forall k :: 0 <= k < |keys| ==> !HasHit(cols, keys, k)
  {
    var e := ExactFrom(cols, keys, 0);
    if e.Some? then
      var k0, j0 :| ExactChoice(cols, keys, 0, k0, j0) && e.value == cols[j0];
      ExactIsHit(cols, keys, k0, j0);
      assert HasHit(cols, keys, k0);
      e
    else
      HitFrom(cols, keys, 0)
  }

  /** An exact match (up to case) beats any substring match, keys are tried in their order,
      and among headers equal up to case the last one wins. */
  lemma GuessPrefersExact(cols: seq<string>, keys: seq<string>, k: int)
    requires 0 <= k < |keys| && HasExact(cols, keys, k)
    requires forall k' :: 0 <= k' < k ==> !HasExact(cols, keys, k')
    ensures GuessColumn(cols, keys).Some?
    ensures exists j :: (0 <= j < |cols| && GuessColumn(cols, keys).value == cols[j]
      && ExactAt(cols, keys, k, j)
      && forall j' :: j < j' < |cols| ==> !ExactAt(cols, keys, k, j'))
  {
    var e := ExactFrom(cols, keys, 0);
    var k0, j0 :| ExactChoice(cols, keys, 0, k0, j0) && e.value == cols[j0];
    assert HasExact(cols, keys, k0);
    assert k0 == k;
  }

  /** Without any exact match, the first key contained in some header selects the first
      header containing it. */
  lemma GuessFallsBackToSubstring(cols: seq<string>, keys: seq<string>)
    requires forall k :: 0 <= k < |keys| ==> !HasExact(cols, keys, k)
    requires exists k :: 0 <= k < |keys| && HasHit(cols, keys, k)
    ensures GuessColumn(cols, keys).Some?
    ensures exists k, j :: HitChoice(cols, keys, 0, k, j) && GuessColumn(cols, keys).value == cols[j]
  {
  }

  // ----- normalize_df -----

  /** A raw spreadsheet as read: its headers and its rows of cells. */
  datatype RawTable = RawTable(columns: seq<string>, rows: seq<seq<Cell>>)

  /** Every row has one cell per header, as in any data frame. */
  predicate Rectangular(t: RawTable) {
    forall i :: 0 <= i < |t.rows| ==> |t.rows[i]| == |t.columns|
  }

  /** Position of a canonical column in the synonym table. */
  function Rank(f: Canon): int {
    match f
    case DATA => 0
    case NOTA => 1
    case TIPO => 2
    case VALOR => 3
    case SETOR => 4
  }

  /** What `guess_column` returned for each canonical column. */
  datatype Guesses = Guesses(data: Option<string>, nota: Option<string>, tipo: Option<string>,
                             valor: Option<string>, setor: Option<string>)

  function Guess(cols: seq<string>): Guesses {
    Guesses(GuessColumn(cols, Synonyms(DATA)), GuessColumn(cols, Synonyms(NOTA)),
            GuessColumn(cols, Synonyms(TIPO)), GuessColumn(cols, Synonyms(VALOR)),
            GuessColumn(cols, Synonyms(SETOR)))
  }

  function Guessed(g: Guesses, f: Canon): Option<string> {
    match f
    case DATA => g.data
    case NOTA => g.nota
    case TIPO => g.tipo
    case VALOR => g.valor
    case SETOR => g.setor
  }

  lemma GuessedIsGuessColumn(cols: seq<string>, f: Canon)
    ensures Guessed(Guess(cols), f) == GuessColumn(cols, Synonyms(f))
  {
    match f
    case DATA =>
    case NOTA =>
    case TIPO =>
    case VALOR =>
    case SETOR =>
  }

  /** `if found: new_cols[found] = key.upper()`: header `c` was guessed for `f`; an empty
      header is falsy and binds nothing. */
  predicate Binds(g: Guesses, f: Canon, c: string) {
    Guessed(g, f) == Some(c) && c != ""
  }

  /** The canonical column `new_cols` finally maps header `c` to: when several guessed the same
      header, the last assignment wins. */
  function Binder(g: Guesses, c: string): (r: Option<Canon>)
    ensures r.Some? ==> Binds(g, r.value, c)
    ensures r.Some? ==> forall f :: Rank(f) > Rank(r.value) ==> !Binds(g, f, c)
    ensures r.None? <==> forall f :: !Binds(g, f, c)
  {
    if Binds(g, SETOR, c) then Some(SETOR)
    else if Binds(g, VALOR, c) then Some(VALOR)
    else if Binds(g, TIPO, c) then Some(TIPO)
    else if Binds(g, NOTA, c) then Some(NOTA)
    else if Binds(g, DATA, c) then Some(DATA)
    else None
  }

  /** Header `c` after `df.rename(columns=new_cols)`. */
  function RenameHeader(g: Guesses, c: string): string {
    match Binder(g, c)
    case Some(f) => Name(f)
    case None => c
  }

  lemma NameInjective(f: Canon, h: Canon)
    ensures Name(f) == Name(h) <==> f == h
  {
    if Name(f) == Name(h) {
      assert Name(f)[0] == Name(h)[0];
      assert Name(f)[1] == Name(h)[1];
    }
  }

  /** A header ends up named `Name(f)` exactly when `f` bound it and no later canonical column
      did, or when it already was `Name(f)` and nothing bound it. */
  lemma RenameHeaderCases(g: Guesses, c: string, f: Canon)
    ensures RenameHeader(g, c) == Name(f) <==>
      || (Binds(g, f, c) && forall h :: Rank(h) > Rank(f) ==> !Binds(g, h, c))
      || (c == Name(f) && forall h :: !Binds(g, h, c))
  {
    var b := Binder(g, c);
    if b.Some? {
      NameInjective(b.value, f);
    }
  }

  /** The header after renaming. */
  function Renamed(cols: seq<string>): (r: seq<string>)
    ensures |r| == |cols|
    ensures forall j :: 0 <= j < |cols| ==> r[j] == RenameHeader(Guess(cols), cols[j])
  {
    var g := Guess(cols);
    seq(|cols|, j requires 0 <= j < |cols| => RenameHeader(g, cols[j]))
  }

  /** The five canonical cells of one row. */
  datatype CanonRow = CanonRow(data: Cell, nota: Cell, tipo: Cell, valor: Cell, setor: Cell)

  function Field(r: CanonRow, f: Canon): Cell {
    match f
    case DATA => r.data
    case NOTA => r.nota
    case TIPO => r.tipo
    case VALOR => r.valor
    case SETOR => r.setor
  }

  /** Renaming left two columns under one canonical name that a later step reads: selecting it
      yields a frame, not a column, and the analysis cannot go on. */
  datatype SchemaError = DuplicateColumn(name: string)

  function IndexOf(names: seq<string>, n: string): (r: Option<nat>)
    ensures r.Some? ==> r.value < |names| && names[r.value] == n && n !in names[..r.value]
    ensures r.None? <==> n !in names
    decreases |names|
  {
    if |names| == 0 then None
    else if names[0] == n then Some(0)
    else
      var r := IndexOf(names[1..], n);
      if r.Some? then
        assert names[..r.value + 1] == [names[0]] + names[1..][..r.value];
        Some(r.value + 1)
      else None
  }

  /** The cell a row contributes to canonical column `f`: the first column carrying its name, or
      NaN when none does. */
  function CellOf(row: seq<Cell>, names: seq<string>, f: Canon): Cell
    requires |row| == |names|
  {
    match IndexOf(names, Name(f))
    case None => Missing
    case Some(j) => row[j]
  }

  predicate Duplicated(names: seq<string>, f: Canon) {
    multiset(names)[Name(f)] >= 2
  }

  /** Reading canonical column `f` as a single column fails: renaming left it on two columns and
      a later step reads it.  SETOR is read only by the sector filter, so a doubled SETOR is
      harmless when every sector is selected. */
  predicate Breaks(names: seq<string>, f: Canon, readsSector: bool) {
    Duplicated(names, f) && (f != SETOR || readsSector)
  }

  predicate AnyBroken(names: seq<string>, readsSector: bool) {
    exists f :: Breaks(names, f, readsSector)
  }

  lemma NoneBroken(names: seq<string>, readsSector: bool)
    requires !Breaks(names, DATA, readsSector) && !Breaks(names, NOTA, readsSector)
    requires !Breaks(names, TIPO, readsSector) && !Breaks(names, VALOR, readsSector)
    requires !Breaks(names, SETOR, readsSector)
    ensures forall f :: !Breaks(names, f, readsSector)
  {
    forall f ensures !Breaks(names, f, readsSector) {
      match f
      case DATA =>
      case NOTA =>
      case TIPO =>
      case VALOR =>
      case SETOR =>
    }
  }

  /** The first canonical name (in table order) whose doubling breaks the analysis. */
  function FirstBroken(names: seq<string>, readsSector: bool): (r: Option<Canon>)
    ensures r.None? <==> forall f :: !Breaks(names, f, readsSector)
    ensures r.Some? ==> Breaks(names, r.value, readsSector)
  {
    if Breaks(names, DATA, readsSector) then Some(DATA)
    else if Breaks(names, NOTA, readsSector) then Some(NOTA)
    else if Breaks(names, TIPO, readsSector) then Some(TIPO)
    else if Breaks(names, VALOR, readsSector) then Some(VALOR)
    else if Breaks(names, SETOR, readsSector) then Some(SETOR)
    else NoneBroken(names, readsSector); None
  }

  lemma UniqueIndex(names: seq<string>, a: int, b: int)
    requires 0 <= a < |names| && 0 <= b < |names| && names[a] == names[b]
    requires multiset(names)[names[a]] < 2
    ensures a == b
  {
    Seqs.MultiplicityAtLeastTwo(names, a);
  }

  lemma CellOfAt(row: seq<Cell>, names: seq<string>, f: Canon, j: int)
    requires |row| == |names| && 0 <= j < |names| && names[j] == Name(f) && Name(f) !in names[..j]
    ensures CellOf(row, names, f) == row[j]
  {
    var k := IndexOf(names, Name(f)).value;
  }

  /** A name carried by one column only is carried by no column before it. */
  lemma UniqueIsFirst(names: seq<string>, j: int)
    requires 0 <= j < |names| && multiset(names)[names[j]] < 2
    ensures names[j] !in names[..j]
  {
    if names[j] in names[..j] {
      var k :| 0 <= k < j && names[..j][k] == names[j];
      UniqueIndex(names, k, j);
    }
  }

  function ProjectRow(row: seq<Cell>, names: seq<string>): CanonRow
    requires |row| == |names|
  {
    CanonRow(CellOf(row, names, DATA), CellOf(row, names, NOTA), CellOf(row, names, TIPO),
             CellOf(row, names, VALOR), CellOf(row, names, SETOR))
  }

  lemma FieldOfProjectRow(row: seq<Cell>, names: seq<string>, f: Canon)
    requires |row| == |names|
    ensures Field(ProjectRow(row, names), f) == CellOf(row, names, f)
  {
    match f
    case DATA =>
    case NOTA =>
    case TIPO =>
    case VALOR =>
    case SETOR =>
  }

  /** Selecting the five canonical columns of every row under the header `names`. */
  function Project(rows: seq<seq<Cell>>, names: seq<string>): (r: seq<CanonRow>)
    requires forall i :: 0 <= i < |rows| ==> |rows[i]| == |names|
    ensures |r| == |rows|
    ensures forall i, j, f ::
      (0 <= i < |rows| && 0 <= j < |names| && names[j] == Name(f) && Name(f) !in names[..j]) ==>
        Field(r[i], f) == rows[i][j]
    ensures forall i, f :: (0 <= i < |rows| && Name(f) !in names) ==> Field(r[i], f) == Missing
  {
    var r := seq(|rows|, i requires 0 <= i < |rows| =>
      ProjectRow(rows[i], names));
    forall i, j, f | 0 <= i < |rows| && 0 <= j < |names| && names[j] == Name(f) && Name(f) !in names[..j]
      ensures Field(r[i], f) == rows[i][j]
    {
      FieldOfProjectRow(rows[i], names, f);
      CellOfAt(rows[i], names, f, j);
    }
    forall i, f | 0 <= i < |rows| && Name(f) !in names
      ensures Field(r[i], f) == Missing
    {
      FieldOfProjectRow(rows[i], names, f);
    }
    r
  }

  /** The five canonical columns of `rows` under the header `names`; fails when a canonical
      name that is read labels two columns.  A doubled SETOR that nothing reads takes its first
      column. */
  function SelectCanonical(rows: seq<seq<Cell>>, names: seq<string>, readsSector: bool): (r: Result<seq<CanonRow>, SchemaError>)
    requires forall i :: 0 <= i < |rows| ==> |rows[i]| == |names|
    ensures r.Failure? <==> AnyBroken(names, readsSector)
    ensures r.Failure? ==> multiset(names)[r.error.name] >= 2
    ensures r.Success? ==> |r.value| == |rows|
    ensures r.Success? ==> forall i, j, f ::
      (0 <= i < |rows| && 0 <= j < |names| && names[j] == Name(f) && (f != SETOR || readsSector)) ==>
        Field(r.value[i], f) == rows[i][j]
    ensures r.Success? ==> forall i, j, f ::
      (0 <= i < |rows| && 0 <= j < |names| && names[j] == Name(f) && Name(f) !in names[..j]) ==>
        Field(r.value[i], f) == rows[i][j]
    ensures r.Success? ==> forall i, f ::
      (0 <= i < |rows| && Name(f) !in names) ==> Field(r.value[i], f) == Missing
  {
    match FirstBroken(names, readsSector)
    case Some(f) => Failure(DuplicateColumn(Name(f)))
    case None =>
      var p := Project(rows, names);
      assert forall j, f :: 0 <= j < |names| && names[j] == Name(f) && (f != SETOR || readsSector) ==>
        Name(f) !in names[..j] by {
        forall j, f | 0 <= j < |names| && names[j] == Name(f) && (f != SETOR || readsSector)
          ensures Name(f) !in names[..j]
        {
          assert !Breaks(names, f, readsSector);
          UniqueIsFirst(names, j);
        }
      }
      Success(p)
  }

  /** `normalize_df` followed by reading the five canonical columns: one canonical row per raw
      row, each canonical cell taken from the header renamed to that column, or NaN when no
      header was.  Fails exactly when renaming doubled a canonical name that is read; SETOR is
      read only when `readsSector` (a sector filter is applied). */
  function Normalize(t: RawTable, readsSector: bool): (r: Result<seq<CanonRow>, SchemaError>)
    requires Rectangular(t)
    ensures r.Failure? <==> AnyBroken(Renamed(t.columns), readsSector)
    ensures r.Success? ==> |r.value| == |t.rows|
    ensures r.Success? ==> forall i, j, f ::
      (0 <= i < |t.rows| && 0 <= j < |t.columns| && Renamed(t.columns)[j] == Name(f) && (f != SETOR || readsSector)) ==>
        Field(r.value[i], f) == t.rows[i][j]
    ensures r.Success? ==> forall i, f ::
      (0 <= i < |t.rows| && Name(f) !in Renamed(t.columns)) ==> Field(r.value[i], f) == Missing
  {
    var names := Renamed(t.columns);
    SelectCanonical(t.rows, names, readsSector)
  }

  /** A canonical name left on several columns, when nothing reads it, takes its cells from the
      first of them. */
  lemma NormalizeTakesFirstColumn(t: RawTable, readsSector: bool)
    requires Rectangular(t)
    ensures Normalize(t, readsSector).Success? ==> forall i, j, f ::
      (0 <= i < |t.rows| && 0 <= j < |t.columns| && Renamed(t.columns)[j] == Name(f) && Name(f) !in Renamed(t.columns)[..j]) ==>
        Field(Normalize(t, readsSector).value[i], f) == t.rows[i][j]
  {
  }

  /** Each canonical name is itself one of its synonyms up to case, so a header already
      carrying a canonical name is always guessed. */
  lemma NameIsSynonym(f: Canon)
    ensures Lower(Name(f)) == Lower(Synonyms(f)[|Synonyms(f)| - 1]) || Lower(Name(f)) == Lower(Synonyms(f)[0])
  {
    match f
    case DATA =>
      assert Lower("DATA") == "data";
      assert Lower("data") == "data";
    case NOTA =>
      assert Lower("NOTA") == "nota";
      assert Lower("nota") == "nota";
    case TIPO =>
      assert Lower("TIPO") == "tipo";
      assert Lower("Tipo") == "tipo";
    case VALOR =>
      assert Lower("VALOR") == "valor";
      assert Lower("Valor") == "valor";
    case SETOR =>
      assert Lower("SETOR") == "setor";
      assert Lower("setor") == "setor";
  }

  /** A header already named after a canonical column is always guessed for it. */
  lemma CanonicalHeaderIsGuessed(cols: seq<string>, f: Canon, j: int)
    requires 0 <= j < |cols|
    ensures cols[j] == Name(f) ==> GuessColumn(cols, Synonyms(f)).Some?
  {
    if cols[j] == Name(f) {
      NameIsSynonym(f);
      var keys := Synonyms(f);
      var k := if Lower(Name(f)) == Lower(keys[0]) then 0 else |keys| - 1;
      assert ExactAt(cols, keys, k, j);
      ExactIsHit(cols, keys, k, j);
      assert HasHit(cols, keys, k);
    }
  }

  /** A header containing no synonym of `f` is never renamed to `f`'s name. */
  lemma UnguessedNameAbsent(cols: seq<string>, f: Canon)
    requires GuessColumn(cols, Synonyms(f)).None?
    ensures Name(f) !in Renamed(cols)
  {
    var g := Guess(cols);
    GuessedIsGuessColumn(cols, f);
    forall j | 0 <= j < |cols| ensures Renamed(cols)[j] != Name(f) {
      RenameHeaderCases(g, cols[j], f);
      CanonicalHeaderIsGuessed(cols, f, j);
    }
  }

  /** A canonical column for which no header contains any synonym is filled with NaN in
      every row. */
  lemma UnguessedFieldIsMissing(t: RawTable, f: Canon, readsSector: bool)
    requires Rectangular(t)
    ensures GuessColumn(t.columns, Synonyms(f)).None? && Normalize(t, readsSector).Success? ==>
      forall i :: 0 <= i < |t.rows| ==> Field(Normalize(t, readsSector).value[i], f) == Missing
  {
    if GuessColumn(t.columns, Synonyms(f)).None? {
      UnguessedNameAbsent(t.columns, f);
    }
  }

  /** The header `guess_column` found for `f` supplies that canonical column, unless a later
      canonical column guessed the same header.  (A doubled SETOR that nothing reads is left
      aside: there the model keeps the first column carrying the name.) */
  lemma GuessedHeaderFeedsField(t: RawTable, f: Canon, j: int, readsSector: bool)
    requires Rectangular(t)
    requires 0 <= j < |t.columns|
    ensures
      && GuessColumn(t.columns, Synonyms(f)) == Some(t.columns[j]) && t.columns[j] != ""
      && (forall h :: Rank(h) > Rank(f) ==> GuessColumn(t.columns, Synonyms(h)) != Some(t.columns[j]))
      && Normalize(t, readsSector).Success? && (f != SETOR || readsSector)
      ==> forall i :: 0 <= i < |t.rows| ==> Field(Normalize(t, readsSector).value[i], f) == t.rows[i][j]
  {
    var cols := t.columns;
    if GuessColumn(cols, Synonyms(f)) == Some(cols[j]) && cols[j] != ""
      && (forall h :: Rank(h) > Rank(f) ==> GuessColumn(cols, Synonyms(h)) != Some(cols[j]))
    {
      var g := Guess(cols);
      GuessedIsGuessColumn(cols, f);
      forall h | Rank(h) > Rank(f) ensures !Binds(g, h, cols[j]) {
        GuessedIsGuessColumn(cols, h);
      }
      RenameHeaderCases(g, cols[j], f);
      assert Renamed(cols)[j] == Name(f);
    }
  }
}
