/**
 * The "price to reach the top 30" estimate. The magic score of the row
 * ranked 30th is the bar. A row ranked 30th or worse would reach that bar
 * at the EV/EBIT rank `bar - its ROIC rank`. The row holding that EV/EBIT
 * rank gives a target EV/EBIT multiple. The estimate is the share price at
 * which this row's EBIT times the target multiple, less its net debt, is
 * its market value.
 */
module TopThirty {
  import opened Wrappers
  import opened Seqs
  import opened Rows

  /** The magic rank whose score is the bar. */
  const TopPosition: int := 30

  function HasMagicRank(n: int): Row -> bool {
    (row: Row) => row.magicRanking == n
  }

  function HasEvEbitRank(n: int): Row -> bool {
    (row: Row) => row.evByEbitRanking == n
  }

  /** The magic score of the first row ranked 30th. `None` when no row is:
      that lookup sits outside the per-row error handling, so the run aborts. */
  function TopScore(df: seq<Row>): (r: Option<int>)
    ensures r.None? <==> forall i :: 0 <= i < |df| ==> df[i].magicRanking != TopPosition
    ensures r.Some? ==> exists i :: 0 <= i < |df| && df[i].magicRanking == TopPosition && df[i].magicValue == r.value
  {
    var k :- FindFirst(df, HasMagicRank(TopPosition));
    Some(df[k].magicValue)
  }

  /** The share price at which a company with `shares` shares, valued at
      its EBIT times `multiple` less `netDebt`, has that value as its market
      value. */
  function TargetPrice(ebit: real, shares: real, multiple: real, netDebt: real): (p: real)
    requires shares != 0.0
    ensures p * shares + netDebt == ebit * multiple
  {
    (ebit * multiple - netDebt) / shares
  }

  /** The per-row estimate for a given net-debt figure. A row in the top 30,
      a target rank below 1, a target rank nobody holds, no shares and a
      target above the current price all give 0; otherwise the estimate is
      the target price against the first row holding the target rank. */
  function EstimateWith(df: seq<Row>, topScore: int, row: Row, netDebt: real): (v: real)
    ensures row.magicRanking < TopPosition ==> v == 0.0
    ensures topScore - row.roicRanking <= 0 ==> v == 0.0
    ensures FindFirst(df, HasEvEbitRank(topScore - row.roicRanking)).None? ==> v == 0.0
    ensures row.numeroAcoes == 0.0 ==> v == 0.0
    ensures v != 0.0 ==> v <= row.cotacao
    ensures var k := FindFirst(df, HasEvEbitRank(topScore - row.roicRanking));
      row.magicRanking >= TopPosition && topScore - row.roicRanking > 0 && k.Some? && row.numeroAcoes != 0.0 ==>
        var p := TargetPrice(row.ebit, row.numeroAcoes, df[k.value].evByEbit, netDebt);
        (p <= row.cotacao ==> v == p) && (p > row.cotacao ==> v == 0.0)
  {
    if row.magicRanking < TopPosition then 0.0
    else
      var target := topScore - row.roicRanking;
      if target <= 0 then 0.0
      else
        match FindFirst(df, HasEvEbitRank(target))
        case None => 0.0
        case Some(j) =>
          if row.numeroAcoes == 0.0 then 0.0
          else
            var price := TargetPrice(row.ebit, row.numeroAcoes, df[j].evByEbit, netDebt);
            if price > row.cotacao then 0.0 else price
  }

  /** Net debt as the code writes it: market value less enterprise value. */
  function WrittenNetDebt(row: Row): real {
    row.valorMercado - row.valorFirma
  }

  /** The estimate as the code computes it, with market value minus
      enterprise value in the place of net debt. A nonzero estimate is the
      target price for that figure; at it, market value plus the real net
      debt (enterprise value - market value) falls short of EBIT times the
      target multiple by twice that net debt. */
  function CotacaoToTopAsWritten(df: seq<Row>, topScore: int, row: Row): (v: real)
    ensures row.magicRanking < TopPosition ==> v == 0.0
    ensures v != 0.0 ==> v <= row.cotacao
    ensures var k := FindFirst(df, HasEvEbitRank(topScore - row.roicRanking));
      v != 0.0 ==> (k.Some? && row.numeroAcoes != 0.0
        && v * row.numeroAcoes + (row.valorFirma - row.valorMercado)
           == row.ebit * df[k.value].evByEbit + 2.0 * (row.valorFirma - row.valorMercado))
    ensures var k := FindFirst(df, HasEvEbitRank(topScore - row.roicRanking));
      row.magicRanking >= TopPosition && topScore - row.roicRanking > 0 && k.Some? && row.numeroAcoes != 0.0 ==>
        var p := TargetPrice(row.ebit, row.numeroAcoes, df[k.value].evByEbit, WrittenNetDebt(row));
        (p <= row.cotacao ==> v == p) && (p > row.cotacao ==> v == 0.0)
  {
    EstimateWith(df, topScore, row, WrittenNetDebt(row))
  }

  /** Net debt: enterprise value less market value. */
  function NetDebt(row: Row): real {
    row.valorFirma - row.valorMercado
  }

  /** The estimate with net debt as enterprise value minus market value: at
      the estimated price, market value plus net debt is exactly EBIT times
      the EV/EBIT of the first row at the target rank. */
  function CotacaoToTop(df: seq<Row>, topScore: int, row: Row): (v: real)
    ensures row.magicRanking < TopPosition ==> v == 0.0
    ensures v != 0.0 ==> v <= row.cotacao
    ensures var k := FindFirst(df, HasEvEbitRank(topScore - row.roicRanking));
      v != 0.0 ==> k.Some? && v * row.numeroAcoes + NetDebt(row) == row.ebit * df[k.value].evByEbit
    ensures var k := FindFirst(df, HasEvEbitRank(topScore - row.roicRanking));
      row.magicRanking >= TopPosition && topScore - row.roicRanking > 0 && k.Some? && row.numeroAcoes != 0.0 ==>
        var p := TargetPrice(row.ebit, row.numeroAcoes, df[k.value].evByEbit, NetDebt(row));
        (p <= row.cotacao ==> v == p) && (p > row.cotacao ==> v == 0.0)
  {
    EstimateWith(df, topScore, row, NetDebt(row))
  }

  /** The row that sets the bar needs no change: its target rank is its own
      EV/EBIT rank, and for a row whose valuation fields agree with each
      other the estimate is its current price. */
  lemma BarRowKeepsItsPrice(df: seq<Row>, row: Row)
    requires row in df && row.magicRanking == TopPosition
    requires row.magicValue == row.evByEbitRanking + row.roicRanking && row.evByEbitRanking > 0
    requires forall j :: 0 <= j < |df| && df[j].evByEbitRanking == row.evByEbitRanking ==> df[j] == row
    requires row.numeroAcoes != 0.0 && row.valorMercado == row.numeroAcoes * row.cotacao
    requires row.valorFirma == row.ebit * row.evByEbit
    ensures CotacaoToTop(df, row.magicValue, row) == row.cotacao
  {
    var target := row.magicValue - row.roicRanking;
    assert target == row.evByEbitRanking;
    var k :| 0 <= k < |df| && df[k] == row;
    var j := FindFirst(df, HasEvEbitRank(target));
    assert HasEvEbitRank(target)(df[k]);
    assert j.Some? && df[j.value] == row;
    var price := TargetPrice(row.ebit, row.numeroAcoes, row.evByEbit, NetDebt(row));
    assert price * row.numeroAcoes == row.numeroAcoes * row.cotacao;
    assert price == row.cotacao;
  }

  /** A company holding the 30th place with net cash: market value 200,
      enterprise value 150, 10 shares at 20, EV/EBIT 15. */
  const NetCashBarRow := Row("ABCD3", 20.0, 2.0, 20.0, 15.0, 0.1, 100.0, [], "", "", "", "",
                             200.0, 10.0, 10.0, 150.0, true, 1, 1, 2, 30, 0.0)

  /** Its valuation fields are the ones the valuation chain computes. */
  lemma NetCashBarRowIsValued()
    ensures WithValuation(NetCashBarRow) == NetCashBarRow
  {
    var row := NetCashBarRow;
    assert ValorMercado(row) == 200.0;
    assert NumeroAcoes(row) == 10.0;
    assert Ebit(row) == 10.0;
  }

  /** The code as written asks that company for half its current price to
      reach the place it already holds. */
  lemma BarRowAsWrittenHalvesPrice()
    ensures CotacaoToTopAsWritten([NetCashBarRow], NetCashBarRow.magicValue, NetCashBarRow) == 10.0
    ensures NetCashBarRow.cotacao == 20.0
  {
    var row := NetCashBarRow;
    assert FindFirst([row], HasEvEbitRank(1)) == Some(0);
    assert TargetPrice(row.ebit, row.numeroAcoes, row.evByEbit, WrittenNetDebt(row)) * row.numeroAcoes == 100.0;
  }

  /** With net debt taken as enterprise value less market value, the same
      company is asked for its current price. */
  lemma BarRowCorrectedKeepsPrice()
    ensures CotacaoToTop([NetCashBarRow], NetCashBarRow.magicValue, NetCashBarRow) == NetCashBarRow.cotacao
  {
    BarRowKeepsItsPrice([NetCashBarRow], NetCashBarRow);
  }

  /** The estimate column the pipeline writes asks the net-cash company
      at the 30th place for 10.0, half its price. */
  lemma BarRowColumnAsWritten()
    ensures CotacaoToTopColumn([NetCashBarRow]).Some?
    ensures CotacaoToTopColumn([NetCashBarRow]).value[0].cotacaoToTop30 == 10.0
  {
    BarRowAsWrittenHalvesPrice();
    assert TopScore([NetCashBarRow]) == Some(NetCashBarRow.magicValue) by {
      assert HasMagicRank(TopPosition)(NetCashBarRow);
    }
  }

  /** `df[COTACAO_TO_TOP30] = ...`: the estimate, as the code computes it,
      for every row against the bar. Rows inside the top 30 get 0; every
      other value is 0 or at most the row's current price. */
  function CotacaoToTopColumn(df: seq<Row>): (r: Option<seq<Row>>)
    ensures r.None? <==> TopScore(df).None?
    ensures r.Some? ==> |r.value| == |df|
    ensures r.Some? ==> forall i :: 0 <= i < |df| ==>
      r.value[i] == df[i].(cotacaoToTop30 := CotacaoToTopAsWritten(df, TopScore(df).value, df[i]))
    ensures r.Some? ==> forall i :: 0 <= i < |df| && df[i].magicRanking < TopPosition ==> r.value[i].cotacaoToTop30 == 0.0
    ensures r.Some? ==> forall i :: 0 <= i < |df| ==>
      r.value[i].cotacaoToTop30 == 0.0 || r.value[i].cotacaoToTop30 <= df[i].cotacao
  {
    var score :- TopScore(df);
    Some(seq(|df|, i requires 0 <= i < |df| => df[i].(cotacaoToTop30 := CotacaoToTopAsWritten(df, score, df[i]))))
  }
}
