/**
 * One company row of the working table once it has been normalised, and the
 * per-row computations of the pipeline: the valuation chain (market value,
 * share count, EBIT, enterprise value) and the small-cap flag.
 */
module Rows {
  import opened Wrappers
  import opened RawTable

  /** A company row. `cells` is the whole normalised source row, carried
      through to the output; the named fields are the columns the pipeline
      reads and the columns it adds. Added columns hold 0, "" or false until
      their stage has run. */
  datatype Row = Row(
    papel: string,
    cotacao: real,
    pByVp: real,
    pByEbit: real,
    evByEbit: real,
    roic: real,
    patrimonioLiquido: real,
    cells: seq<Cell>,
    empresa: string,
    setor: string,
    subsetor: string,
    ultCotacao: string,
    valorMercado: real,
    numeroAcoes: real,
    ebit: real,
    valorFirma: real,
    smallcap: bool,
    evByEbitRanking: int,
    roicRanking: int,
    magicValue: int,
    magicRanking: int,
    cotacaoToTop30: real)

  /** Net equity at or below which a company is flagged small cap. */
  const MinPatrimonio: real := 300000000.00

  /** The number in the column `name`, if the column exists once and holds a number. */
  function NumberAt(columns: seq<string>, cells: seq<Cell>, name: string): (r: Option<real>)
    requires |cells| == |columns|
    ensures r.Some? <==> ColumnIndex(columns, name).Some? && cells[ColumnIndex(columns, name).value].Num?
    ensures r.Some? ==> r.value == cells[ColumnIndex(columns, name).value].value
  {
    match ColumnIndex(columns, name)
    case None => None
    case Some(k) => if cells[k].Num? then Some(cells[k].value) else None
  }

  function TextAt(columns: seq<string>, cells: seq<Cell>, name: string): (r: Option<string>)
    requires |cells| == |columns|
    ensures r.Some? <==> ColumnIndex(columns, name).Some? && cells[ColumnIndex(columns, name).value].Text?
    ensures r.Some? ==> r.value == cells[ColumnIndex(columns, name).value].text
  {
    match ColumnIndex(columns, name)
    case None => None
    case Some(k) => if cells[k].Text? then Some(cells[k].text) else None
  }

  /** Reads the columns the pipeline uses out of a normalised row; `None`
      when one of them is missing, repeated or of the wrong kind. */
  function ToRow(columns: seq<string>, cells: seq<Cell>): (r: Option<Row>)
    requires |cells| == |columns|
    ensures r.Some? ==> r.value.cells == cells
    ensures r.Some? ==> NumberAt(columns, cells, EvEbit) == Some(r.value.evByEbit)
    ensures r.Some? ==> TextAt(columns, cells, Papel) == Some(r.value.papel)
    ensures r.Some? ==> NumberAt(columns, cells, Roic) == Some(r.value.roic)
  {
    var papel :- TextAt(columns, cells, Papel);
    var cotacao :- NumberAt(columns, cells, Cotacao);
    var pByVp :- NumberAt(columns, cells, PByVp);
    var pByEbit :- NumberAt(columns, cells, PByEbit);
    var evByEbit :- NumberAt(columns, cells, EvEbit);
    var roic :- NumberAt(columns, cells, Roic);
    var patrimonio :- NumberAt(columns, cells, Patrimonio);
    Some(Row(papel, cotacao, pByVp, pByEbit, evByEbit, roic, patrimonio, cells,
             "", "", "", "", 0.0, 0.0, 0.0, 0.0, false, 0, 0, 0, 0, 0.0))
  }

  /** Converts every row, or none. */
  function ToRows(columns: seq<string>, rows: seq<seq<Cell>>): (r: Option<seq<Row>>)
    requires forall i :: 0 <= i < |rows| ==> |rows[i]| == |columns|
    ensures r.Some? <==> forall i :: 0 <= i < |rows| ==> ToRow(columns, rows[i]).Some?
    ensures r.Some? ==> |r.value| == |rows| && forall i :: 0 <= i < |rows| ==> ToRow(columns, rows[i]) == Some(r.value[i])
  {
    if rows == [] then Some([])
    else
      var first, rest := ToRow(columns, rows[0]), ToRows(columns, rows[1..]);
      assert forall j :: 0 <= j < |rows| - 1 ==> rows[1..][j] == rows[j + 1];
      if first.None? || rest.None? then None
      else Some([first.value] + rest.value)
  }

  // The valuation chain. Each step reads only fields set by the steps before it.

  /** Market value: price/book times net equity. */
  function ValorMercado(r: Row): real {
    r.pByVp * r.patrimonioLiquido
  }

  /** Share count: market value over price, 0 when the price is 0. */
  function NumeroAcoes(r: Row): (v: real)
    ensures r.cotacao != 0.0 ==> v * r.cotacao == r.valorMercado
    ensures r.cotacao == 0.0 ==> v == 0.0
  {
    if r.cotacao == 0.0 then 0.0 else r.valorMercado / r.cotacao
  }

  /** EBIT: price over price/EBIT, times the share count; 0 when price/EBIT is 0. */
  function Ebit(r: Row): (v: real)
    ensures r.pByEbit != 0.0 ==> v * r.pByEbit == r.cotacao * r.numeroAcoes
    ensures r.pByEbit == 0.0 || r.numeroAcoes == 0.0 ==> v == 0.0
  {
    if r.pByEbit == 0.0 then 0.0 else r.cotacao / r.pByEbit * r.numeroAcoes
  }

  /** Enterprise value: EBIT times EV/EBIT. */
  function ValorFirma(r: Row): real {
    r.ebit * r.evByEbit
  }

  // The four column stages, one field each.
  function SetValorMercado(r: Row): Row { r.(valorMercado := ValorMercado(r)) }
  function SetNumeroAcoes(r: Row): Row { r.(numeroAcoes := NumeroAcoes(r)) }
  function SetEbit(r: Row): Row { r.(ebit := Ebit(r)) }
  function SetValorFirma(r: Row): Row { r.(valorFirma := ValorFirma(r)) }

  /** The four derived fields, set in the order the pipeline sets them. */
  function WithValuation(r: Row): Row {
    SetValorFirma(SetEbit(SetNumeroAcoes(SetValorMercado(r))))
  }

  /** What the chain reconstructs: share count times price is the market
      value, EBIT times price/EBIT is the market value, and enterprise value
      is EBIT times EV/EBIT. A zero price zeroes share count, EBIT and
      enterprise value; a zero price/EBIT zeroes EBIT and enterprise value. */
  lemma ValuationChain(r: Row)
    ensures var v := WithValuation(r);
      && v.valorMercado == r.pByVp * r.patrimonioLiquido
      && (r.cotacao != 0.0 ==> v.numeroAcoes * r.cotacao == v.valorMercado)
      && (r.cotacao != 0.0 && r.pByEbit != 0.0 ==> v.ebit * r.pByEbit == v.valorMercado)
      && v.valorFirma == v.ebit * r.evByEbit
      && (r.cotacao == 0.0 ==> v.numeroAcoes == 0.0 && v.ebit == 0.0 && v.valorFirma == 0.0)
      && (r.pByEbit == 0.0 ==> v.ebit == 0.0 && v.valorFirma == 0.0)
  {
    var v := WithValuation(r);
    if r.cotacao != 0.0 && r.pByEbit != 0.0 {
      calc {
        v.ebit * r.pByEbit;
        r.cotacao * v.numeroAcoes;
        v.valorMercado;
      }
    }
  }

  /** The row value of the small-cap column. */
  function IsSmallCap(r: Row): (b: bool)
    ensures b <==> r.patrimonioLiquido <= MinPatrimonio
  {
    !(r.patrimonioLiquido > MinPatrimonio)
  }

  function SetSmallCap(r: Row): Row { r.(smallcap := IsSmallCap(r)) }

  /** The boundary: net equity of exactly 300,000,000.00 is small cap. */
  lemma SmallCapBoundary(r: Row)
    requires r.patrimonioLiquido == 300000000.0
    ensures IsSmallCap(r)
  {
  }
}
