/**
 * The scraper object: the working table `df` and the ticker cache
 * `tickerDict`, updated in place by one method per pipeline stage. Each
 * method is proved to leave the state its pure counterpart in the Pipeline
 * module describes; `RunAll` runs the stages in order and inherits the
 * whole-run guarantees.
 */
module Scraper {
  import opened Wrappers
  import opened Seqs
  import opened RawTable
  import opened Rows
  import opened Metadata
  import Dates
  import opened Ranking
  import opened TopThirty
  import opened Pipeline

  /** Looking up the ticker of row `i` extends the merge over rows `..i` to rows `..i + 1`. */
  lemma NextRowMerged(cache: map<string, Entry>, df: seq<Row>, i: nat, fetch: string -> TickerInfo)
    requires i < |df|
    ensures MergedCache(MergedCache(cache, Papels(df[..i]), fetch), [df[i].papel], fetch)
            == MergedCache(cache, Papels(df[..i + 1]), fetch)
  {
    var before, name := df[..i], df[i].papel;
    assert df[..i + 1] == before + [df[i]];
    PapelsAppend(before, df[i]);
    MergeAppend(cache, Papels(before), fetch, name);
  }

  lemma PapelsAppend(rows: seq<Row>, row: Row)
    ensures Papels(rows + [row]) == Papels(rows) + [row.papel]
  {
    MapConcat(PapelOf, rows, [row]);
    assert MapSeq(PapelOf, [row]) == [row.papel];
  }

  /** `column` holds, row by row, `field` of the entry the lookup gives for the row's ticker. */
  predicate ColumnOf(column: seq<string>, rows: seq<Row>, cache: map<string, Entry>, fetch: string -> TickerInfo, field: string) {
    |column| == |rows|
    && forall i :: 0 <= i < |rows| ==> column[i] == MetaField(EntryFor(cache, fetch, rows[i].papel), field)
  }

  /** A column read through a merged cache is the column read through the original one. */
  lemma ColumnOfMerged(column: seq<string>, rows: seq<Row>, cache: map<string, Entry>, names: seq<string>,
                       fetch: string -> TickerInfo, field: string)
    requires ColumnOf(column, rows, MergedCache(cache, names, fetch), fetch, field)
    ensures ColumnOf(column, rows, cache, fetch, field)
  {
    forall i | 0 <= i < |rows|
      ensures column[i] == MetaField(EntryFor(cache, fetch, rows[i].papel), field)
    {
      EntryForStable(cache, names, fetch, rows[i].papel);
    }
  }

  /** The four metadata columns written into the table. */
  function WithColumns(rows: seq<Row>, setor: seq<string>, subsetor: seq<string>, empresa: seq<string>, data: seq<string>): (r: seq<Row>)
    requires |setor| == |subsetor| == |empresa| == |data| == |rows|
    ensures |r| == |rows|
  {
    seq(|rows|, i requires 0 <= i < |rows| =>
      rows[i].(subsetor := subsetor[i], setor := setor[i], empresa := empresa[i], ultCotacao := data[i]))
  }

  /** Columns read through the cache, written into the table, give the table with its metadata. */
  lemma ColumnsAreMetadata(rows: seq<Row>, cache: map<string, Entry>, fetch: string -> TickerInfo,
                           setor: seq<string>, subsetor: seq<string>, empresa: seq<string>, data: seq<string>)
    requires ColumnOf(setor, rows, cache, fetch, SetorField) && ColumnOf(subsetor, rows, cache, fetch, SubsetorField)
    requires ColumnOf(empresa, rows, cache, fetch, EmpresaField) && ColumnOf(data, rows, cache, fetch, DataUltCotacaoField)
    ensures WithColumns(rows, setor, subsetor, empresa, data) == WithMetadata(rows, cache, fetch)
  {
  }

  class FundamentusScraper {
    /** The working table, one company per row. */
    var df: seq<Row>
    /** Ticker symbol to cached metadata entry. */
    var tickerDict: map<string, Entry>

    constructor()
      ensures df == [] && tickerDict == map[]
    {
      df := [];
      tickerDict := map[];
    }

    /** Load the cache, normalise the raw table and keep the rows with EV/EBIT > 0. */
    method Setup(raw: Table, cache: map<string, Entry>) returns (ok: bool)
      requires WellFormed(raw)
      modifies this
      ensures tickerDict == cache
      ensures ok <==> SetupRows(raw).Some?
      ensures ok ==> df == SetupRows(raw).value
      ensures !ok ==> df == old(df)
    {
      tickerDict := cache;
      var renamed := RenameColumns(raw);
      var parsed := ParsePercentageFields(renamed);
      if parsed.None? {
        return false;
      }
      var kept := FilterPositiveEvEbit(parsed.value);
      if kept.None? {
        return false;
      }
      var rows := ToRows(kept.value.columns, kept.value.rows);
      if rows.None? {
        return false;
      }
      df := rows.value;
      return true;
    }

    /** The cached entry for `name`, or a fetched one that is stored first. */
    method GetTicker(name: string, fetch: string -> TickerInfo) returns (ticker: Entry)
      modifies this
      ensures ticker == EntryFor(old(tickerDict), fetch, name)
      ensures tickerDict == MergedCache(old(tickerDict), [name], fetch)
      ensures df == old(df)
    {
      MergeStep(tickerDict, [], fetch, name);
      MergeNothing(tickerDict, fetch);
      assert [] + [name] == [name];
      if name in tickerDict {
        return tickerDict[name];
      }
      ticker := TickerData(fetch(name));
      tickerDict := tickerDict[name := ticker];
    }

    /** One metadata field of a row's ticker, "" when the entry lacks it. */
    method GetRowValue(row: Row, field: string, fetch: string -> TickerInfo) returns (v: string)
      modifies this
      ensures v == MetaField(EntryFor(old(tickerDict), fetch, row.papel), field)
      ensures tickerDict == MergedCache(old(tickerDict), [row.papel], fetch)
      ensures df == old(df)
    {
      var ticker := GetTicker(row.papel, fetch);
      v := MetaField(ticker, field);
    }

    /** `df.apply(lambda row: get_row_value(row, field), axis=1)`: the
        field for every row, looking tickers up (and caching them) in row order. */
    method MetadataColumn(field: string, fetch: string -> TickerInfo) returns (column: seq<string>)
      modifies this
      ensures df == old(df) && ColumnOf(column, df, old(tickerDict), fetch, field)
      ensures tickerDict == MergedCache(old(tickerDict), Papels(df), fetch)
    {
      var rows, cache := df, tickerDict;
      column := [];
      MergeNothing(cache, fetch);
      assert rows[..0] == [];
      var i := 0;
      while i < |rows|
        invariant 0 <= i <= |rows| && df == rows && |column| == i
        invariant forall k :: 0 <= k < i ==> column[k] == MetaField(EntryFor(cache, fetch, rows[k].papel), field)
        invariant tickerDict == MergedCache(cache, Papels(rows[..i]), fetch)
      {
        var v := RowValueInTurn(cache, i, field, fetch);
        column := column + [v];
        i := i + 1;
      }
      assert rows[..i] == rows;
    }

    /** The lookup for row `i` once rows `..i` have been looked up: the value
        is what the lookup gave at the start, and row `i` joins the merge. */
    method RowValueInTurn(ghost cache: map<string, Entry>, i: nat, field: string, fetch: string -> TickerInfo) returns (v: string)
      requires i < |df| && tickerDict == MergedCache(cache, Papels(df[..i]), fetch)
      modifies this
      ensures df == old(df)
      ensures v == MetaField(EntryFor(cache, fetch, df[i].papel), field)
      ensures tickerDict == MergedCache(cache, Papels(df[..i + 1]), fetch)
    {
      EntryForStable(cache, Papels(df[..i]), fetch, df[i].papel);
      NextRowMerged(cache, df, i, fetch);
      v := GetRowValue(df[i], field, fetch);
    }

    /** Sector, sub-sector, company name and last-quote date for every row. */
    method CrawlStockData(fetch: string -> TickerInfo)
      modifies this
      ensures tickerDict == MergedCache(old(tickerDict), Papels(old(df)), fetch)
      ensures df == WithMetadata(old(df), old(tickerDict), fetch)
    {
      var cache, rows := tickerDict, df;
      var setor := MetadataColumn(SetorField, fetch);
      MergeIdempotent(cache, Papels(rows), fetch);
      var subsetor := MetadataColumn(SubsetorField, fetch);
      ColumnOfMerged(subsetor, rows, cache, Papels(rows), fetch, SubsetorField);
      var empresa := MetadataColumn(EmpresaField, fetch);
      ColumnOfMerged(empresa, rows, cache, Papels(rows), fetch, EmpresaField);
      var data := MetadataColumn(DataUltCotacaoField, fetch);
      ColumnOfMerged(data, rows, cache, Papels(rows), fetch, DataUltCotacaoField);
      ColumnsAreMetadata(rows, cache, fetch, setor, subsetor, empresa, data);
      df := WithColumns(rows, setor, subsetor, empresa, data);
    }

    method SetValorMercadoColumn()
      modifies this
      ensures df == MapSeq(SetValorMercado, old(df)) && tickerDict == old(tickerDict)
    {
      df := MapSeq(SetValorMercado, df);
    }

    method SetNumeroAcoesColumn()
      modifies this
      ensures df == MapSeq(SetNumeroAcoes, old(df)) && tickerDict == old(tickerDict)
    {
      df := MapSeq(SetNumeroAcoes, df);
    }

    method SetEbitColumn()
      modifies this
      ensures df == MapSeq(SetEbit, old(df)) && tickerDict == old(tickerDict)
    {
      df := MapSeq(SetEbit, df);
    }

    method SetValorFirmaColumn()
      modifies this
      ensures df == MapSeq(SetValorFirma, old(df)) && tickerDict == old(tickerDict)
    {
      df := MapSeq(SetValorFirma, df);
    }

    /** Rewrite the last-quote dates in ISO form and drop the rows quoted on
        or before the cutoff for a run on a day of `month` of `year`. */
    method RemoveOldTickers(year: int, month: int) returns (ok: bool)
      requires 1 <= year <= 9999 && 1 <= month <= 12
      modifies this
      ensures ok <==> RemoveOld(old(df), year, month).Some?
      ensures ok ==> df == RemoveOld(old(df), year, month).value
      ensures tickerDict == old(tickerDict)
    {
      var dated := ReformatDates(df);
      if dated.None? {
        return false;
      }
      var cutoff := Dates.MinimumDate(year, month);
      if cutoff.None? {
        return false;
      }
      df := Filter(dated.value, QuotedAfter(cutoff.value));
      return true;
    }

    method SetSmallCapColumn()
      modifies this
      ensures df == MapSeq(SetSmallCap, old(df)) && tickerDict == old(tickerDict)
    {
      df := MapSeq(SetSmallCap, df);
    }

    method SetEvEbitRanking()
      modifies this
      ensures df == RankByEvEbit(old(df)) && tickerDict == old(tickerDict)
    {
      df := RankByEvEbit(df);
    }

    method SetRoicRanking()
      modifies this
      ensures df == RankByRoic(old(df)) && tickerDict == old(tickerDict)
    {
      df := RankByRoic(df);
    }

    method SetMagicRanking()
      modifies this
      ensures df == RankByMagic(old(df)) && tickerDict == old(tickerDict)
    {
      df := RankByMagic(df);
    }

    /** The estimate column; fails when no row holds magic rank 30. */
    method GetCotacaoToTopColumn() returns (ok: bool)
      modifies this
      ensures ok <==> CotacaoToTopColumn(old(df)).Some?
      ensures ok ==> df == CotacaoToTopColumn(old(df)).value
      ensures tickerDict == old(tickerDict)
    {
      var column := CotacaoToTopColumn(df);
      if column.None? {
        return false;
      }
      df := column.value;
      return true;
    }

    /** The stages up to the small-cap flag: setup, metadata, valuation
        and the staleness filter. */
    method Prepare(raw: Table, cache: map<string, Entry>, fetch: string -> TickerInfo, year: int, month: int) returns (ok: bool)
      requires WellFormed(raw) && 1 <= year <= 9999 && 1 <= month <= 12
      modifies this
      ensures ok <==> Prepared(raw, cache, fetch, year, month).Some?
      ensures ok ==> df == Prepared(raw, cache, fetch, year, month).value
      ensures ok ==> tickerDict == MergedCache(cache, Papels(SetupRows(raw).value), fetch)
    {
      ok := Setup(raw, cache);
      if !ok {
        return;
      }
      ghost var rows := df;
      CrawlStockData(fetch);
      ghost var merged := tickerDict;
      SetValorMercadoColumn();
      SetNumeroAcoesColumn();
      SetEbitColumn();
      SetValorFirmaColumn();
      ValuationStages(WithMetadata(rows, cache, fetch));
      assert df == MapSeq(WithValuation, WithMetadata(rows, cache, fetch));
      ok := RemoveOldTickers(year, month);
      if !ok {
        return;
      }
      SetSmallCapColumn();
      assert tickerDict == merged;
    }

    /** The three rankings in order, then the estimate column; fails when
        no row holds magic rank 30. */
    method RankAndEstimate() returns (ok: bool)
      modifies this
      ensures ok <==> CotacaoToTopColumn(Ranked(old(df))).Some?
      ensures ok ==> df == CotacaoToTopColumn(Ranked(old(df))).value
      ensures tickerDict == old(tickerDict)
    {
      SetEvEbitRanking();
      SetRoicRanking();
      SetMagicRanking();
      ok := GetCotacaoToTopColumn();
    }

    /** The stages in the order `main` runs them, from the fetched raw
        table and the loaded cache to the finished table. */
    method RunAll(raw: Table, cache: map<string, Entry>, fetch: string -> TickerInfo, year: int, month: int) returns (ok: bool)
      requires WellFormed(raw) && 1 <= year <= 9999 && 1 <= month <= 12
      modifies this
      ensures ok <==> Run(raw, cache, fetch, year, month).Some?
      ensures ok ==> df == Run(raw, cache, fetch, year, month).value
      ensures ok ==> tickerDict == MergedCache(cache, Papels(SetupRows(raw).value), fetch)
      ensures ok ==> RunOutcome(df)
    {
      ok := Prepare(raw, cache, fetch, year, month);
      if !ok {
        return;
      }
      ok := RankAndEstimate();
      if ok {
        RunGuarantees(raw, cache, fetch, year, month);
      }
    }
  }
}
