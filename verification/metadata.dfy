/**
 * The per-ticker metadata cache: ticker symbol to a small record of
 * descriptive fields (company name, sector, sub-sector, last-quote date).
 * A ticker already in the cache is answered from it; any other ticker is
 * fetched once and its record stored under its name.
 */
module Metadata {
  /** One cache entry, as the cache file stores it: field name to text. */
  type Entry = map<string, string>

  /** What the ticker detail page yields. */
  datatype TickerInfo = TickerInfo(papel: string, empresa: string, setor: string, subsetor: string, dataUltCotacao: string)

  // Field names of a cache entry
  const PapelField := "papel"
  const EmpresaField := "empresa"
  const SetorField := "setor"
  const SubsetorField := "subsetor"
  const DataUltCotacaoField := "data_ult_cotacao"

  /** The entry stored for a freshly fetched ticker: exactly its five fields. */
  function TickerData(info: TickerInfo): (e: Entry)
    ensures e.Keys == {PapelField, EmpresaField, SetorField, SubsetorField, DataUltCotacaoField}
    ensures e[SetorField] == info.setor && e[SubsetorField] == info.subsetor
    ensures e[EmpresaField] == info.empresa && e[DataUltCotacaoField] == info.dataUltCotacao
    ensures e[PapelField] == info.papel
  {
    map[PapelField := info.papel, EmpresaField := info.empresa, SetorField := info.setor,
        SubsetorField := info.subsetor, DataUltCotacaoField := info.dataUltCotacao]
  }

  /** The entry the lookup returns for `name`: the cached one, or the fetched one. */
  function EntryFor(cache: map<string, Entry>, fetch: string -> TickerInfo, name: string): Entry {
    if name in cache then cache[name] else TickerData(fetch(name))
  }

  /** The cache after every name of `names` has been looked up, in any order:
      the old entries unchanged, plus a fetched entry for each new name. */
  function MergedCache(cache: map<string, Entry>, names: seq<string>, fetch: string -> TickerInfo): (r: map<string, Entry>)
    ensures r.Keys == cache.Keys + NameSet(names)
    ensures forall n :: n in cache ==> r[n] == cache[n]
  {
    map n | n in cache.Keys + NameSet(names) :: EntryFor(cache, fetch, n)
  }

  function NameSet(names: seq<string>): (r: set<string>)
    ensures forall n :: n in r <==> n in names
  {
    set m | m in names
  }

  /** A field of an entry, or the empty string when the entry lacks it. */
  function MetaField(entry: Entry, field: string): (v: string)
    ensures field !in entry ==> v == ""
    ensures field in entry ==> v == entry[field]
  {
    if field in entry then entry[field] else ""
  }

  /** Looking a name up in a merged cache gives what the lookup gave at the
      start: once a ticker has an entry, the entry never changes. */
  lemma EntryForStable(cache: map<string, Entry>, names: seq<string>, fetch: string -> TickerInfo, name: string)
    ensures EntryFor(MergedCache(cache, names, fetch), fetch, name) == EntryFor(cache, fetch, name)
  {
  }

  /** One more lookup extends the merge by one name. */
  lemma MergeStep(cache: map<string, Entry>, names: seq<string>, fetch: string -> TickerInfo, name: string)
    ensures var c := MergedCache(cache, names, fetch);
      MergedCache(cache, names + [name], fetch) == c[name := EntryFor(c, fetch, name)]
  {
    var c := MergedCache(cache, names, fetch);
    assert NameSet(names + [name]) == NameSet(names) + {name};
    EntryForStable(cache, names, fetch, name);
  }

  lemma MergeNothing(cache: map<string, Entry>, fetch: string -> TickerInfo)
    ensures MergedCache(cache, [], fetch) == cache
  {
  }

  /** Looking up `name` in a merged cache is merging one more name. */
  lemma MergeAppend(cache: map<string, Entry>, names: seq<string>, fetch: string -> TickerInfo, name: string)
    ensures MergedCache(MergedCache(cache, names, fetch), [name], fetch) == MergedCache(cache, names + [name], fetch)
  {
    var c := MergedCache(cache, names, fetch);
    MergeStep(cache, names, fetch, name);
    MergeStep(c, [], fetch, name);
    MergeNothing(c, fetch);
    assert [] + [name] == [name];
  }

  /** Looking up the same names a second time changes nothing and fetches nothing. */
  lemma MergeIdempotent(cache: map<string, Entry>, names: seq<string>, fetch: string -> TickerInfo)
    ensures MergedCache(MergedCache(cache, names, fetch), names, fetch) == MergedCache(cache, names, fetch)
  {
    var c := MergedCache(cache, names, fetch);
    var c2 := MergedCache(c, names, fetch);
    assert c2.Keys == c.Keys;
    forall n | n in c2 ensures c2[n] == c[n] {
    }
  }

  /** What a row gets for a field: the cached value (or "" when the cached
      entry lacks the field) for a cached ticker, the fetched value otherwise. */
  lemma FieldSource(cache: map<string, Entry>, fetch: string -> TickerInfo, name: string)
    ensures name !in cache ==>
      && MetaField(EntryFor(cache, fetch, name), SetorField) == fetch(name).setor
      && MetaField(EntryFor(cache, fetch, name), SubsetorField) == fetch(name).subsetor
      && MetaField(EntryFor(cache, fetch, name), EmpresaField) == fetch(name).empresa
      && MetaField(EntryFor(cache, fetch, name), DataUltCotacaoField) == fetch(name).dataUltCotacao
    ensures name in cache ==> forall f :: MetaField(EntryFor(cache, fetch, name), f) == MetaField(cache[name], f)
  {
  }
}
