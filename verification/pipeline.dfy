/**
 * The pipeline stages as functions from table to table, in the order the
 * scraper runs them, and the properties of a whole run: every surviving row
 * has a positive EV/EBIT and a correct small-cap flag, the three rank
 * columns each hold 1..N once, the table is in magic-rank order, and the
 * top-30 estimate is 0 inside the top 30, never above the current price,
 * and otherwise the target price the code computes.
 */
module Pipeline {
  import opened Wrappers
  import opened Seqs
  import opened RawTable
  import opened Rows
  import opened Metadata
  import Dates
  import opened Ranking
  import opened TopThirty

  // setup

  /** Rename the headers, parse the percentage columns, keep the rows with
      EV/EBIT > 0 and read them as company rows. */
  function SetupRows(raw: Table): (r: Option<seq<Row>>)
    requires WellFormed(raw)
    ensures r.Some? ==> |r.value| <= |raw.rows|
    ensures r.Some? ==> forall i :: 0 <= i < |r.value| ==> r.value[i].evByEbit > 0.0
  {
    var t := RenameColumns(raw);
    var p :- NormalisedTable(t);
    var f :- FilterPositiveEvEbit(p);
    var rows :- ToRows(f.columns, f.rows);
    KeptRowsPositive(p, rows);
    Some(rows)
  }

  /** A row read from a table that went through the EV/EBIT filter has a positive EV/EBIT. */
  lemma KeptRowsPositive(p: Table, rows: seq<Row>)
    requires WellFormed(p) && FilterPositiveEvEbit(p).Some?
    requires var f := FilterPositiveEvEbit(p).value; ToRows(f.columns, f.rows) == Some(rows)
    ensures forall i :: 0 <= i < |rows| ==> rows[i].evByEbit > 0.0
  {
    var f := FilterPositiveEvEbit(p).value;
    var k := ColumnIndex(p.columns, EvEbit).value;
    forall i | 0 <= i < |rows| ensures rows[i].evByEbit > 0.0 {
      var cells := f.rows[i];
      assert ToRow(f.columns, cells) == Some(rows[i]);
      assert NumberAt(f.columns, cells, EvEbit) == Some(rows[i].evByEbit);
      assert cells in Filter(p.rows, PositiveAt(k));
      assert PositiveAt(k)(cells);
    }
  }

  // crawl_stock_data

  function PapelOf(row: Row): string {
    row.papel
  }

  /** The ticker symbols of the table, in row order. */
  function Papels(df: seq<Row>): seq<string> {
    MapSeq(PapelOf, df)
  }

  /** The four metadata columns of one row, read from its cache entry. */
  function RowWithMetadata(row: Row, entry: Entry): (r: Row)
    ensures r.(subsetor := row.subsetor, setor := row.setor, empresa := row.empresa, ultCotacao := row.ultCotacao) == row
  {
    row.(subsetor := MetaField(entry, SubsetorField), setor := MetaField(entry, SetorField),
         empresa := MetaField(entry, EmpresaField), ultCotacao := MetaField(entry, DataUltCotacaoField))
  }

  /** Every row with its metadata from the cache, fetching the tickers it lacks. */
  function WithMetadata(df: seq<Row>, cache: map<string, Entry>, fetch: string -> TickerInfo): (r: seq<Row>)
    ensures |r| == |df|
    ensures forall i :: 0 <= i < |df| ==> r[i] == RowWithMetadata(df[i], EntryFor(cache, fetch, df[i].papel))
  {
    seq(|df|, i requires 0 <= i < |df| => RowWithMetadata(df[i], EntryFor(cache, fetch, df[i].papel)))
  }

  /** A ticker missing from the cache gets the fetched sector, sub-sector,
      company name and last-quote date; a cached one gets the cached fields,
      "" for a field its entry lacks. */
  lemma MetadataSource(df: seq<Row>, cache: map<string, Entry>, fetch: string -> TickerInfo, i: nat)
    requires i < |df|
    ensures var r := WithMetadata(df, cache, fetch)[i]; var n := df[i].papel;
      && (n !in cache ==> r.setor == fetch(n).setor && r.subsetor == fetch(n).subsetor
                          && r.empresa == fetch(n).empresa && r.ultCotacao == fetch(n).dataUltCotacao)
      && (n in cache ==> r.setor == MetaField(cache[n], SetorField) && r.subsetor == MetaField(cache[n], SubsetorField)
                         && r.empresa == MetaField(cache[n], EmpresaField)
                         && r.ultCotacao == MetaField(cache[n], DataUltCotacaoField))
  {
    FieldSource(cache, fetch, df[i].papel);
  }

  // set_valor_mercado_column .. set_valor_firma_column

  /** The four column stages, run one after the other, compute the whole
      valuation chain on every row. */
  lemma ValuationStages(df: seq<Row>)
    ensures MapSeq(SetValorFirma, MapSeq(SetEbit, MapSeq(SetNumeroAcoes, MapSeq(SetValorMercado, df))))
            == MapSeq(WithValuation, df)
  {
  }

  // remove_old_tickers

  /** The last-quote column rewritten from "DD/MM/YYYY" to "YYYY-MM-DD";
      `None` when some date has fewer than three '/'-separated parts. */
  function ReformatDates(df: seq<Row>): (r: Option<seq<Row>>)
    ensures r.Some? <==> forall i :: 0 <= i < |df| ==> Dates.ReformatDate(df[i].ultCotacao).Some?
    ensures r.Some? ==> |r.value| == |df|
    ensures r.Some? ==> forall i :: 0 <= i < |df| ==>
      r.value[i] == df[i].(ultCotacao := Dates.ReformatDate(df[i].ultCotacao).value)
  {
    if df == [] then Some([])
    else
      var iso :- Dates.ReformatDate(df[0].ultCotacao);
      var rest :- ReformatDates(df[1..]);
      Some([df[0].(ultCotacao := iso)] + rest)
  }

  /** The row test: the rewritten quote date sorts after the cutoff's ISO form. */
  function QuotedAfter(cutoff: Dates.Date): Row -> bool
    requires 0 <= cutoff.year < 10000 && 0 <= cutoff.month < 100 && 0 <= cutoff.day < 100
  {
    (row: Row) => Dates.IsRecent(row.ultCotacao, cutoff)
  }

  /** The staleness filter for a run on a day of `month` of `year`. */
  function RemoveOld(df: seq<Row>, year: int, month: int): (r: Option<seq<Row>>)
    requires 1 <= year <= 9999 && 1 <= month <= 12
    ensures r.Some? ==> |r.value| <= |df|
    ensures r.Some? <==> ReformatDates(df).Some? && Dates.MinimumDate(year, month).Some?
  {
    var rows :- ReformatDates(df);
    var cutoff :- Dates.MinimumDate(year, month);
    Some(Filter(rows, QuotedAfter(cutoff)))
  }

  /** A row whose last quote is written as the listing writes dates survives,
      with its date in ISO form, exactly when it was quoted after the cutoff. */
  lemma StaleRowsDropped(df: seq<Row>, year: int, month: int, i: nat, d: Dates.Date)
    requires 1 <= year <= 9999 && 1 <= month <= 12 && RemoveOld(df, year, month).Some?
    requires i < |df| && 0 <= d.year < 10000 && 0 <= d.month < 100 && 0 <= d.day < 100
    requires df[i].ultCotacao == Dates.DateText(d)
    ensures df[i].(ultCotacao := Dates.IsoFormat(d)) in RemoveOld(df, year, month).value
            <==> Dates.Before(Dates.MinimumDate(year, month).value, d)
  {
    Dates.ReformatDateText(d);
    Dates.RecentIffAfterCutoff(d, year, month);
    var rows := ReformatDates(df).value;
    assert rows[i] == df[i].(ultCotacao := Dates.IsoFormat(d));
  }

  // set_small_cap_column .. set_magic_ranking_row

  /** What the filters and the small-cap stage guarantee of each surviving row. */
  predicate Screened(row: Row) {
    row.evByEbit > 0.0 && (row.smallcap <==> row.patrimonioLiquido <= MinPatrimonio)
  }

  lemma RankKeepsScreened(s: seq<Row>, f: RankField)
    requires forall i :: 0 <= i < |s| ==> Screened(s[i])
    ensures var r := RankBy(s, f); forall i :: 0 <= i < |r| ==> Screened(r[i])
  {
    var r := RankBy(s, f);
    forall i | 0 <= i < |r| ensures Screened(r[i]) {
      RankedRowsAreInputRows(s, f, r[i]);
      var j :| 0 <= j < |s| && Unranked(f)(s[j]) == Unranked(f)(r[i]);
      assert Screened(Unranked(f)(s[j])) == Screened(s[j]);
      assert Screened(Unranked(f)(r[i])) == Screened(r[i]);
    }
  }

  function EvRankOf(row: Row): int {
    row.evByEbitRanking
  }

  function RoicRankOf(row: Row): int {
    row.roicRanking
  }

  /** The three ranking stages. */
  function Ranked(df: seq<Row>): (r: seq<Row>)
    ensures |r| == |df|
  {
    RankByMagic(RankByRoic(RankByEvEbit(df)))
  }

  /** After the three ranking stages, the EV/EBIT and ROIC rank columns each
      still hold 1..N exactly once, although the rows were re-sorted twice. */
  lemma RankedColumnsArePermutations(df: seq<Row>)
    ensures var r := Ranked(df);
      && multiset(MapSeq(EvRankOf, r)) == multiset(OneTo(|df|))
      && multiset(MapSeq(RoicRankOf, r)) == multiset(OneTo(|df|))
  {
    var r1 := RankByEvEbit(df);
    assert MapSeq(EvRankOf, r1) == OneTo(|df|);
    var r2 := RankByRoic(r1);
    assert MapSeq(RoicRankOf, r2) == OneTo(|df|);
    RankValuesKept(r2, r1, RoicRank, EvRankOf);
    var scored := MapSeq(WithMagicValue, r2);
    MapSeqAbsorb(WithMagicValue, EvRankOf, r2);
    MapSeqAbsorb(WithMagicValue, RoicRankOf, r2);
    var r3 := RankByMagic(r2);
    RankValuesKept(r3, scored, MagicRank, EvRankOf);
    RankValuesKept(r3, scored, MagicRank, RoicRankOf);
  }

  lemma RankedKeepsScreened(df: seq<Row>)
    requires forall i :: 0 <= i < |df| ==> Screened(df[i])
    ensures var r := Ranked(df); forall i :: 0 <= i < |r| ==> Screened(r[i])
  {
    var r1 := RankByEvEbit(df);
    RankKeepsScreened(df, EvEbitRank);
    var r2 := RankByRoic(r1);
    RankKeepsScreened(r1, RoicRank);
    var scored := MapSeq(WithMagicValue, r2);
    RankKeepsScreened(scored, MagicRank);
  }

  // main

  /** The stages up to and including the small-cap flag. */
  function Prepared(raw: Table, cache: map<string, Entry>, fetch: string -> TickerInfo, year: int, month: int): (r: Option<seq<Row>>)
    requires WellFormed(raw) && 1 <= year <= 9999 && 1 <= month <= 12
    ensures r.Some? ==> |r.value| <= |raw.rows|
  {
    var rows :- SetupRows(raw);
    var valued := MapSeq(WithValuation, WithMetadata(rows, cache, fetch));
    var recent :- RemoveOld(valued, year, month);
    Some(MapSeq(SetSmallCap, recent))
  }

  /** The whole run after the raw table has been fetched. `None` is an
      aborted run. */
  function Run(raw: Table, cache: map<string, Entry>, fetch: string -> TickerInfo, year: int, month: int): (r: Option<seq<Row>>)
    requires WellFormed(raw) && 1 <= year <= 9999 && 1 <= month <= 12
    ensures r.Some? ==> |r.value| <= |raw.rows|
  {
    var flagged :- Prepared(raw, cache, fetch, year, month);
    CotacaoToTopColumn(Ranked(flagged))
  }

  predicate AllPositive(s: seq<Row>) {
    forall i :: 0 <= i < |s| ==> s[i].evByEbit > 0.0
  }

  lemma MetadataKeepsPositive(df: seq<Row>, cache: map<string, Entry>, fetch: string -> TickerInfo)
    requires AllPositive(df)
    ensures AllPositive(MapSeq(WithValuation, WithMetadata(df, cache, fetch)))
  {
    var m := WithMetadata(df, cache, fetch);
    forall i | 0 <= i < |df| ensures m[i].evByEbit > 0.0 {
      assert m[i] == RowWithMetadata(df[i], EntryFor(cache, fetch, df[i].papel));
    }
  }

  lemma RemoveOldKeepsPositive(df: seq<Row>, year: int, month: int)
    requires 1 <= year <= 9999 && 1 <= month <= 12
    requires AllPositive(df) && RemoveOld(df, year, month).Some?
    ensures AllPositive(RemoveOld(df, year, month).value)
  {
    var dated := ReformatDates(df).value;
    var cutoff := Dates.MinimumDate(year, month).value;
    var recent := RemoveOld(df, year, month).value;
    assert AllPositive(dated);
    assert recent == Filter(dated, QuotedAfter(cutoff));
    forall i | 0 <= i < |recent| ensures recent[i].evByEbit > 0.0 {
      assert recent[i] in dated;
    }
  }

  /** Every row that reaches the ranking stages is screened. */
  lemma PreparedScreened(raw: Table, cache: map<string, Entry>, fetch: string -> TickerInfo, year: int, month: int)
    requires WellFormed(raw) && 1 <= year <= 9999 && 1 <= month <= 12
    requires Prepared(raw, cache, fetch, year, month).Some?
    ensures var p := Prepared(raw, cache, fetch, year, month).value;
      forall i :: 0 <= i < |p| ==> Screened(p[i])
  {
    var rows := SetupRows(raw).value;
    var valued := MapSeq(WithValuation, WithMetadata(rows, cache, fetch));
    MetadataKeepsPositive(rows, cache, fetch);
    RemoveOldKeepsPositive(valued, year, month);
  }

  /** What the ranking stages guarantee of a screened table. */
  predicate RankedOutcome(t: seq<Row>) {
    && (forall i :: 0 <= i < |t| ==> Screened(t[i]))
    && (forall i :: 0 <= i < |t| ==> t[i].magicRanking == i + 1)
    && (forall i :: 0 <= i < |t| ==> t[i].magicValue == t[i].evByEbitRanking + t[i].roicRanking)
    && (forall i, j :: 0 <= i < j < |t| ==> t[i].magicValue <= t[j].magicValue)
    && (forall i, j :: 0 <= i < j < |t| ==> t[i].evByEbitRanking != t[j].evByEbitRanking && t[i].roicRanking != t[j].roicRanking)
    && (forall i :: 0 <= i < |t| ==> 1 <= t[i].evByEbitRanking <= |t| && 1 <= t[i].roicRanking <= |t|)
  }

  /** Every estimate is 0 inside the top 30, and 0 or at most the current price elsewhere. */
  predicate EstimatesBounded(t: seq<Row>) {
    && (forall i :: 0 <= i < |t| && t[i].magicRanking < TopPosition ==> t[i].cotacaoToTop30 == 0.0)
    && (forall i :: 0 <= i < |t| ==> t[i].cotacaoToTop30 == 0.0 || t[i].cotacaoToTop30 <= t[i].cotacao)
  }

  /** A row outside the top 30 that has shares, facing the row `j` that holds
      the EV/EBIT rank it would need (the score of the 30th row less its ROIC
      rank), gets the target price against row `j` with net debt as the code
      writes it, or 0 when that price is above its current price. */
  predicate EstimatesPriced(t: seq<Row>)
    requires |t| >= TopPosition
  {
    forall i, j ::
      (0 <= i < |t| && 0 <= j < |t| && t[i].magicRanking >= TopPosition && t[i].numeroAcoes != 0.0
       && t[j].evByEbitRanking == t[TopPosition - 1].magicValue - t[i].roicRanking) ==>
        PricedAgainst(t[i], t[j])
  }

  /** The estimate of `row`, facing the row `target` at its target rank. */
  predicate PricedAgainst(row: Row, target: Row)
    requires row.numeroAcoes != 0.0
  {
    var p := TargetPrice(row.ebit, row.numeroAcoes, target.evByEbit, WrittenNetDebt(row));
    (p <= row.cotacao ==> row.cotacaoToTop30 == p) && (p > row.cotacao ==> row.cotacaoToTop30 == 0.0)
  }

  /** What a completed run guarantees of its table. */
  predicate RunOutcome(t: seq<Row>) {
    && |t| >= TopPosition
    && RankedOutcome(t)
    && EstimatesBounded(t)
    && EstimatesPriced(t)
  }

  lemma RankedGuarantees(df: seq<Row>)
    requires forall i :: 0 <= i < |df| ==> Screened(df[i])
    ensures RankedOutcome(Ranked(df))
  {
    var r := Ranked(df);
    RankedKeepsScreened(df);
    RankedColumnsArePermutations(df);
    PermutationOfOneTo(MapSeq(EvRankOf, r));
    PermutationOfOneTo(MapSeq(RoicRankOf, r));
  }

  /** The estimate column changes nothing the rankings established. */
  lemma EstimatesKeepRanking(ranked: seq<Row>, t: seq<Row>)
    requires RankedOutcome(ranked) && EstimatesAdded(ranked, t)
    ensures RankedOutcome(t) && EstimatesBounded(t)
  {
    forall i | 0 <= i < |t|
      ensures Screened(t[i]) && t[i].magicRanking == i + 1
      ensures t[i].magicValue == t[i].evByEbitRanking + t[i].roicRanking
      ensures 1 <= t[i].evByEbitRanking <= |t| && 1 <= t[i].roicRanking <= |t|
    {
      SameScreening(ranked[i], t[i]);
    }
    forall i, j | 0 <= i < j < |t|
      ensures t[i].magicValue <= t[j].magicValue
      ensures t[i].evByEbitRanking != t[j].evByEbitRanking && t[i].roicRanking != t[j].roicRanking
    {
      assert t[i].magicValue == ranked[i].magicValue && t[j].magicValue == ranked[j].magicValue;
    }
  }

  /** In a ranked table the bar is the score of the row at position 30, and
      the row the estimate looks up is the only one holding the target rank:
      every estimate is the target price against that row. */
  lemma EstimatesArePriced(ranked: seq<Row>)
    requires RankedOutcome(ranked) && CotacaoToTopColumn(ranked).Some?
    ensures |ranked| >= TopPosition
    ensures EstimatesPriced(CotacaoToTopColumn(ranked).value)
  {
    TopRowExists(ranked);
    BarScore(ranked);
    var t := CotacaoToTopColumn(ranked).value;
    forall i, j | 0 <= i < |t| && 0 <= j < |t| && t[i].magicRanking >= TopPosition && t[i].numeroAcoes != 0.0
      && t[j].evByEbitRanking == t[TopPosition - 1].magicValue - t[i].roicRanking
      ensures PricedAgainst(t[i], t[j])
    {
      EstimateAt(ranked, t, i, j);
    }
  }

  /** In a table ranked 1..N by position, the bar is the score at position 30. */
  lemma BarScore(ranked: seq<Row>)
    requires RankedOutcome(ranked) && TopScore(ranked).Some?
    ensures |ranked| >= TopPosition && TopScore(ranked) == Some(ranked[TopPosition - 1].magicValue)
  {
    TopRowExists(ranked);
    var k :| 0 <= k < |ranked| && ranked[k].magicRanking == TopPosition && ranked[k].magicValue == TopScore(ranked).value;
  }

  /** One estimate of the column: row `i` against the row `j` at its target rank. */
  lemma EstimateAt(ranked: seq<Row>, t: seq<Row>, i: nat, j: nat)
    requires RankedOutcome(ranked) && |ranked| >= TopPosition
    requires TopScore(ranked) == Some(ranked[TopPosition - 1].magicValue) && CotacaoToTopColumn(ranked) == Some(t)
    requires i < |t| && j < |t| && t[i].magicRanking >= TopPosition && t[i].numeroAcoes != 0.0
    requires t[j].evByEbitRanking == t[TopPosition - 1].magicValue - t[i].roicRanking
    ensures PricedAgainst(t[i], t[j])
  {
    var score := ranked[TopPosition - 1].magicValue;
    var row := ranked[i];
    assert t[i] == row.(cotacaoToTop30 := CotacaoToTopAsWritten(ranked, score, row));
    assert t[j] == ranked[j].(cotacaoToTop30 := t[j].cotacaoToTop30);
    assert t[TopPosition - 1] == ranked[TopPosition - 1].(cotacaoToTop30 := t[TopPosition - 1].cotacaoToTop30);
    UniqueRankFound(ranked, j);
    RowEstimate(ranked, score, row, j);
  }

  /** With distinct EV/EBIT ranks, the lookup of a rank finds the one row holding it. */
  lemma UniqueRankFound(ranked: seq<Row>, j: nat)
    requires j < |ranked|
    requires forall a, b :: 0 <= a < b < |ranked| ==> ranked[a].evByEbitRanking != ranked[b].evByEbitRanking
    ensures FindFirst(ranked, HasEvEbitRank(ranked[j].evByEbitRanking)) == Some(j)
  {
    var target := ranked[j].evByEbitRanking;
    forall i | 0 <= i < |ranked| && i != j
      ensures !HasEvEbitRank(target)(ranked[i])
    {
      if i < j {
        assert ranked[i].evByEbitRanking != ranked[j].evByEbitRanking;
      } else {
        assert ranked[j].evByEbitRanking != ranked[i].evByEbitRanking;
      }
    }
    FindFirstUnique(ranked, HasEvEbitRank(target), j);
  }

  /** The estimate of a row outside the top 30 whose target rank is held by row `j`. */
  lemma RowEstimate(ranked: seq<Row>, score: int, row: Row, j: nat)
    requires j < |ranked| && 1 <= ranked[j].evByEbitRanking == score - row.roicRanking
    requires FindFirst(ranked, HasEvEbitRank(ranked[j].evByEbitRanking)) == Some(j)
    requires row.magicRanking >= TopPosition && row.numeroAcoes != 0.0
    ensures PricedAgainst(row.(cotacaoToTop30 := CotacaoToTopAsWritten(ranked, score, row)), ranked[j])
  {
    var target := score - row.roicRanking;
    assert FindFirst(ranked, HasEvEbitRank(target)) == Some(j);
    var v := CotacaoToTopAsWritten(ranked, score, row);
    var p := TargetPrice(row.ebit, row.numeroAcoes, ranked[j].evByEbit, WrittenNetDebt(row));
    assert (p <= row.cotacao ==> v == p) && (p > row.cotacao ==> v == 0.0);
    assert WrittenNetDebt(row.(cotacaoToTop30 := v)) == WrittenNetDebt(row);
  }

  /** `t` is `ranked` with an estimate in each row: 0 inside the top 30,
      0 or at most the current price elsewhere. */
  predicate EstimatesAdded(ranked: seq<Row>, t: seq<Row>) {
    && |t| == |ranked|
    && (forall i :: 0 <= i < |t| ==> t[i] == ranked[i].(cotacaoToTop30 := t[i].cotacaoToTop30))
    && (forall i :: 0 <= i < |t| && t[i].magicRanking < TopPosition ==> t[i].cotacaoToTop30 == 0.0)
    && (forall i :: 0 <= i < |t| ==> t[i].cotacaoToTop30 == 0.0 || t[i].cotacaoToTop30 <= t[i].cotacao)
  }

  /** The estimate column writes one field of each row. */
  lemma EstimateColumnShape(ranked: seq<Row>)
    requires CotacaoToTopColumn(ranked).Some?
    ensures EstimatesAdded(ranked, CotacaoToTopColumn(ranked).value)
  {
    var t := CotacaoToTopColumn(ranked).value;
    forall i | 0 <= i < |t|
      ensures t[i] == ranked[i].(cotacaoToTop30 := t[i].cotacaoToTop30)
      ensures t[i].magicRanking == ranked[i].magicRanking && t[i].cotacao == ranked[i].cotacao
    {
    }
  }

  lemma SameScreening(a: Row, b: Row)
    requires Screened(a) && b == a.(cotacaoToTop30 := b.cotacaoToTop30)
    ensures Screened(b)
  {
  }

  /** A completed run meets RunOutcome. */
  lemma RunGuarantees(raw: Table, cache: map<string, Entry>, fetch: string -> TickerInfo, year: int, month: int)
    requires WellFormed(raw) && 1 <= year <= 9999 && 1 <= month <= 12
    requires Run(raw, cache, fetch, year, month).Some?
    ensures RunOutcome(Run(raw, cache, fetch, year, month).value)
  {
    var flagged := Prepared(raw, cache, fetch, year, month).value;
    var ranked := Ranked(flagged);
    PreparedScreened(raw, cache, fetch, year, month);
    RankedGuarantees(flagged);
    EstimateColumnShape(ranked);
    var t := CotacaoToTopColumn(ranked).value;
    EstimatesKeepRanking(ranked, t);
    EstimatesArePriced(ranked);
  }

  /** A table ranked 1..N by position holds a 30th row only when N >= 30. */
  lemma TopRowExists(ranked: seq<Row>)
    requires RankedOutcome(ranked) && TopScore(ranked).Some?
    ensures |ranked| >= TopPosition
  {
    var k :| 0 <= k < |ranked| && ranked[k].magicRanking == TopPosition;
  }
}
