/**
 * The indicator table as it comes from the listing page: a header row and
 * rows of cells, like a data frame. This module holds the column names, the
 * header renaming, the six percentage columns, and the filter that keeps
 * only rows with a positive EV/EBIT.
 */
module RawTable {
  import opened Wrappers
  import opened Seqs
  import Percent

  datatype Cell = Num(value: real) | Text(text: string)

  datatype Table = Table(columns: seq<string>, rows: seq<seq<Cell>>)

  /** Every row has one cell per column. */
  predicate WellFormed(t: Table) {
    forall i :: 0 <= i < |t.rows| ==> |t.rows[i]| == |t.columns|
  }

  // Canonical column names
  const Papel := "papel"
  const Cotacao := "cotacao"
  const PByVp := "pByVp"
  const PByEbit := "pByEbit"
  const EvEbit := "evByEbit"
  const Patrimonio := "patrimonioLiquido"
  const Crescimento := "crescRec"
  const MargemLiquida := "margemLiq"
  const MargemEbit := "margemEbit"
  const Roe := "roe"
  const DividendYield := "dividendYield"
  const Roic := "roic"

  /** Header text of the listing page to canonical column name. */
  const ParsedColumnNames: map<string, string> := map[
    "Papel" := "papel",
    "Cotação" := "cotacao",
    "P/L" := "pByL",
    "P/VP" := "pByVp",
    "PSR" := "psr",
    "Div.Yield" := "dividendYield",
    "P/Ativo" := "pByAtivo",
    "P/Cap.Giro" := "pByCapitalGiro",
    "P/EBIT" := "pByEbit",
    "P/Ativ Circ.Liq" := "pByAtivoCircLiq",
    "EV/EBIT" := "evByEbit",
    "EV/EBITDA" := "evByEbitda",
    "Mrg Ebit" := "margemEbit",
    "Mrg. Líq." := "margemLiq",
    "Liq. Corr." := "liqCorr",
    "ROIC" := "roic",
    "ROE" := "roe",
    "Liq.2meses" := "liqDoisMeses",
    "Patrim. Líq" := "patrimonioLiquido",
    "Dív.Brut/ Patrim." := "dividaBrutaByPatrimonio",
    "Cresc. Rec.5a" := "crescRec",
    "Setor" := "setor",
    "Subsetor" := "subsetor",
    "Smallcap" := "smallcap",
    "EV/EBIT Ranking" := "evByEbitRanking",
    "ROIC Ranking" := "roicRanking",
    "Magic Ranking" := "magicRanking",
    "Data Últ. Cotação" := "ultCotacao",
    "Valor de mercado" := "valorMercado",
    "EBIT" := "ebit",
    "Valor de firma" := "valorFirma",
    "Cotacao para top30" := "cotacaoToTop30"
  ]

  /** The renaming of one header; headers without an entry are kept as they are. */
  function ParsedColumnName(header: string): string {
    if header in ParsedColumnNames then ParsedColumnNames[header] else header
  }

  function RenameColumns(t: Table): (r: Table)
    ensures r.rows == t.rows && |r.columns| == |t.columns|
    ensures forall j :: 0 <= j < |t.columns| ==> r.columns[j] == ParsedColumnName(t.columns[j])
  {
    t.(columns := MapSeq(ParsedColumnName, t.columns))
  }

  predicate StartsUpper(s: string) {
    |s| > 0 && 'A' <= s[0] <= 'Z'
  }

  /** Every page header starts with a capital letter. */
  lemma HeadersStartUpper(header: string)
    requires header in ParsedColumnNames
    ensures StartsUpper(header)
  {
  }

  /** Every canonical name starts with a lower-case letter. */
  lemma CanonicalNamesStartLower(header: string)
    requires header in ParsedColumnNames
    ensures var name := ParsedColumnNames[header]; |name| > 0 && 'a' <= name[0] <= 'z'
  {
  }

  /** No canonical name is itself a page header. */
  lemma CanonicalNamesAreNotHeaders(header: string)
    requires header in ParsedColumnNames
    ensures ParsedColumnNames[header] !in ParsedColumnNames
  {
    CanonicalNamesStartLower(header);
    if ParsedColumnNames[header] in ParsedColumnNames {
      HeadersStartUpper(ParsedColumnNames[header]);
    }
  }

  /** Renaming an already renamed table changes nothing. */
  lemma RenameIdempotent(t: Table)
    ensures RenameColumns(RenameColumns(t)) == RenameColumns(t)
  {
    var once := RenameColumns(t);
    forall j | 0 <= j < |t.columns|
      ensures ParsedColumnName(once.columns[j]) == once.columns[j]
    {
      if t.columns[j] in ParsedColumnNames {
        CanonicalNamesAreNotHeaders(t.columns[j]);
      }
    }
  }

  /** `name` heads exactly one column (pandas raises on a missing one and
      gives a frame, not a column, for a repeated one). */
  predicate OccursOnce(columns: seq<string>, name: string) {
    exists k :: 0 <= k < |columns| && columns[k] == name
      && forall j :: 0 <= j < |columns| && columns[j] == name ==> j == k
  }

  /** The position of the column headed `name`, when there is exactly one. */
  function ColumnIndex(columns: seq<string>, name: string): (r: Option<nat>)
    ensures r.Some? <==> OccursOnce(columns, name)
    ensures r.Some? ==> r.value < |columns| && columns[r.value] == name
    ensures r.Some? ==> forall j :: 0 <= j < |columns| && columns[j] == name ==> j == r.value
  {
    match IndexOf(columns, name)
    case None => None
    case Some(k) =>
      if name in columns[k + 1..] then
        var j :| k + 1 <= j < |columns| && columns[j] == name;
        assert !OccursOnce(columns, name) by {
          forall m | 0 <= m < |columns| && columns[m] == name
            ensures exists o :: 0 <= o < |columns| && columns[o] == name && o != m
          {
            assert columns[k] == name && columns[j] == name && k != j;
          }
        }
        None
      else
        Some(k)
  }

  /** The columns whose cells are locale-formatted percentages. */
  const PercentageFields: seq<string> := [Crescimento, MargemLiquida, MargemEbit, Roe, DividendYield, Roic]

  lemma PercentageFieldsDistinct()
    ensures forall i, j :: 0 <= i < j < |PercentageFields| ==> PercentageFields[i] != PercentageFields[j]
  {
  }

  predicate CellParses(c: Cell) {
    c.Text? && Percent.ParsePercentage(c.text).Some?
  }

  function ParsedCell(c: Cell): Cell
    requires CellParses(c)
  {
    Num(Percent.ParsePercentage(c.text).value)
  }

  /** The column `name` exists once and every cell in it reads as a percentage. */
  predicate ColumnParses(t: Table, name: string)
    requires WellFormed(t)
  {
    && OccursOnce(t.columns, name)
    && forall i, j :: 0 <= i < |t.rows| && 0 <= j < |t.columns| && t.columns[j] == name ==> CellParses(t.rows[i][j])
  }

  predicate AllPercentagesParse(t: Table)
    requires WellFormed(t)
  {
    forall f :: f in PercentageFields ==> ColumnParses(t, f)
  }

  /** A row after normalisation: each percentage cell replaced by the number it reads as. */
  function ParsedRow(columns: seq<string>, cells: seq<Cell>): (r: seq<Cell>)
    requires |cells| == |columns|
    requires forall j :: 0 <= j < |columns| && columns[j] in PercentageFields ==> CellParses(cells[j])
  {
    seq(|cells|, j requires 0 <= j < |cells| => if columns[j] in PercentageFields then ParsedCell(cells[j]) else cells[j])
  }

  /** The table with the six percentage columns parsed, or `None` when one
      of them is missing or repeated or holds a cell that is not a number. */
  function NormalisedTable(t: Table): (r: Option<Table>)
    requires WellFormed(t)
    ensures r.Some? <==> AllPercentagesParse(t)
    ensures r.Some? ==> r.value.columns == t.columns && WellFormed(r.value) && |r.value.rows| == |t.rows|
  {
    if AllPercentagesParse(t) then
      Some(t.(rows := seq(|t.rows|, i requires 0 <= i < |t.rows| => ParsedRow(t.columns, t.rows[i]))))
    else
      None
  }

  /** Parse one percentage column in every row; `None` when the column is
      missing or repeated or a cell does not read as a number. */
  function ParsePercentageColumn(t: Table, name: string): (r: Option<Table>)
    requires WellFormed(t)
    ensures r.Some? <==> ColumnParses(t, name)
    ensures r.Some? ==> r.value.columns == t.columns && WellFormed(r.value) && |r.value.rows| == |t.rows|
    ensures r.Some? ==> forall i, j :: 0 <= i < |t.rows| && 0 <= j < |t.columns| ==>
      r.value.rows[i][j] == if t.columns[j] == name then ParsedCell(t.rows[i][j]) else t.rows[i][j]
  {
    match ColumnIndex(t.columns, name)
    case None => None
    case Some(k) =>
      if forall i :: 0 <= i < |t.rows| ==> CellParses(t.rows[i][k]) then
        Some(t.(rows := seq(|t.rows|, i requires 0 <= i < |t.rows| => t.rows[i][k := ParsedCell(t.rows[i][k])])))
      else
        None
  }

  /** `current` is `t` with the first `n` percentage columns parsed, and
      those columns all parse in `t`. */
  predicate PartlyParsed(t: Table, current: Table, n: nat)
    requires WellFormed(t) && n <= |PercentageFields|
  {
    && current.columns == t.columns && WellFormed(current) && |current.rows| == |t.rows|
    && (forall f :: f in PercentageFields[..n] ==> ColumnParses(t, f))
    && (forall i, j :: 0 <= i < |t.rows| && 0 <= j < |t.columns| ==>
          current.rows[i][j] == if t.columns[j] in PercentageFields[..n] then ParsedCell(t.rows[i][j]) else t.rows[i][j])
  }

  /** Parsing column `n` extends the parsed prefix by one column... */
  lemma ParseStep(t: Table, current: Table, n: nat)
    requires WellFormed(t) && n < |PercentageFields| && PartlyParsed(t, current, n)
    requires ParsePercentageColumn(current, PercentageFields[n]).Some?
    ensures PartlyParsed(t, ParsePercentageColumn(current, PercentageFields[n]).value, n + 1)
  {
    PercentageFieldsDistinct();
    var name := PercentageFields[n];
    assert name !in PercentageFields[..n];
    assert PercentageFields[..n + 1] == PercentageFields[..n] + [name];
  }

  /** ... and when it does not parse, neither does the whole table. */
  lemma ParseStepFails(t: Table, current: Table, n: nat)
    requires WellFormed(t) && n < |PercentageFields| && PartlyParsed(t, current, n)
    requires ParsePercentageColumn(current, PercentageFields[n]).None?
    ensures !AllPercentagesParse(t)
  {
    PercentageFieldsDistinct();
    var name := PercentageFields[n];
    assert name !in PercentageFields[..n];
    assert !ColumnParses(t, name) by {
      if ColumnParses(t, name) {
        assert ColumnParses(current, name);
      }
    }
  }

  /** With every column parsed, the table is the normalised one. */
  lemma ParsedAll(t: Table, current: Table)
    requires WellFormed(t) && PartlyParsed(t, current, |PercentageFields|)
    ensures AllPercentagesParse(t) && NormalisedTable(t) == Some(current)
  {
    assert PercentageFields[..|PercentageFields|] == PercentageFields;
    forall i | 0 <= i < |t.rows|
      ensures current.rows[i] == ParsedRow(t.columns, t.rows[i])
    {
    }
    assert current.rows == NormalisedTable(t).value.rows;
  }

  /** The loop over the six percentage columns. The result parses exactly
      those columns and leaves every other cell as it was. */
  method ParsePercentageFields(t: Table) returns (r: Option<Table>)
    requires WellFormed(t)
    ensures r.Some? <==> AllPercentagesParse(t)
    ensures r == NormalisedTable(t)
    ensures r.Some? ==> forall i :: 0 <= i < |t.rows| ==> r.value.rows[i] == ParsedRow(t.columns, t.rows[i])
  {
    var current := t;
    assert PercentageFields[..0] == [];
    for n := 0 to |PercentageFields|
      invariant PartlyParsed(t, current, n)
    {
      var next := ParsePercentageColumn(current, PercentageFields[n]);
      if next.None? {
        ParseStepFails(t, current, n);
        return None;
      }
      ParseStep(t, current, n);
      current := next.value;
    }
    ParsedAll(t, current);
    return Some(current);
  }

  /** Keeps a row whose cell at `k` is a number greater than zero. */
  function PositiveAt(k: nat): seq<Cell> -> bool {
    (cells: seq<Cell>) => k < |cells| && cells[k].Num? && cells[k].value > 0.0
  }

  /** `df.loc[df[EV_EBIT] > 0]`: `None` when the column is missing or
      repeated or holds text (the comparison raises). */
  function FilterPositiveEvEbit(t: Table): (r: Option<Table>)
    requires WellFormed(t)
    ensures r.Some? <==> (ColumnIndex(t.columns, EvEbit).Some?
      && forall i :: 0 <= i < |t.rows| ==> t.rows[i][ColumnIndex(t.columns, EvEbit).value].Num?)
    ensures r.Some? ==> r.value.columns == t.columns && WellFormed(r.value)
    ensures r.Some? ==> r.value.rows == Filter(t.rows, PositiveAt(ColumnIndex(t.columns, EvEbit).value))
  {
    match ColumnIndex(t.columns, EvEbit)
    case None => None
    case Some(k) =>
      if forall i :: 0 <= i < |t.rows| ==> t.rows[i][k].Num? then
        var kept := Filter(t.rows, PositiveAt(k));
        assert forall i :: 0 <= i < |kept| ==> kept[i] in t.rows;
        Some(t.(rows := kept))
      else
        None
  }

  /** Every row kept by the filter has EV/EBIT > 0, every row with EV/EBIT > 0
      is kept, and kept rows stay in their original order. */
  lemma FilterPositiveEvEbitKeeps(t: Table, a: seq<seq<Cell>>, b: seq<seq<Cell>>)
    requires WellFormed(t) && t.rows == a + b
    requires FilterPositiveEvEbit(t).Some?
    ensures var k := ColumnIndex(t.columns, EvEbit).value;
      && (forall row: seq<Cell> :: row in FilterPositiveEvEbit(t).value.rows <==> row in t.rows && row[k].value > 0.0)
      && FilterPositiveEvEbit(t).value.rows == Filter(a, PositiveAt(k)) + Filter(b, PositiveAt(k))
  {
    var k := ColumnIndex(t.columns, EvEbit).value;
    FilterConcat(a, b, PositiveAt(k));
  }
}
