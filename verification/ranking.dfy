/**
 * The three rankings: sort the table by a key, then number the rows 1..N in
 * their new order. EV/EBIT is ranked ascending, ROIC descending, and the
 * magic score (EV/EBIT rank plus ROIC rank) ascending.
 *
 * The sort is an insertion sort. Only its order and the fact that it
 * permutes the rows are claimed; how it breaks ties is not the source's.
 */
module Ranking {
  import opened Seqs
  import opened Rows

  /** Which ranking a stage computes; each has its own key and its own rank column. */
  datatype RankField = EvEbitRank | RoicRank | MagicRank

  /** The sort key, smallest first: EV/EBIT, minus ROIC (ROIC descending), magic score. */
  function Key(f: RankField, row: Row): real {
    match f
    case EvEbitRank => row.evByEbit
    case RoicRank => -row.roic
    case MagicRank => row.magicValue as real
  }

  function GetRank(row: Row, f: RankField): int {
    match f
    case EvEbitRank => row.evByEbitRanking
    case RoicRank => row.roicRanking
    case MagicRank => row.magicRanking
  }

  function SetRank(row: Row, f: RankField, v: int): (r: Row)
    ensures GetRank(r, f) == v && Key(f, r) == Key(f, row)
  {
    match f
    case EvEbitRank => row.(evByEbitRanking := v)
    case RoicRank => row.(roicRanking := v)
    case MagicRank => row.(magicRanking := v)
  }

  /** The row with the rank column of `f` cleared: what a ranking stage must not change. */
  function Unranked(f: RankField): Row -> Row {
    row => SetRank(row, f, 0)
  }

  predicate SortedBy(s: seq<Row>, f: RankField) {
    forall i, j :: 0 <= i < j < |s| ==> Key(f, s[i]) <= Key(f, s[j])
  }

  lemma SortedTail(s: seq<Row>, f: RankField)
    requires SortedBy(s, f) && s != []
    ensures SortedBy(s[1..], f)
    ensures s[1..] == [] || Key(f, s[0]) <= Key(f, s[1..][0])
  {
  }

  /** Puts `x` before the first row whose key is not smaller. */
  function Insert(x: Row, s: seq<Row>, f: RankField): (r: seq<Row>)
    ensures |r| == |s| + 1
    ensures r[0] == x || (s != [] && r[0] == s[0])
  {
    if s == [] || Key(f, x) <= Key(f, s[0]) then [x] + s
    else [s[0]] + Insert(x, s[1..], f)
  }

  /** A row no greater than the head of a sorted table can go in front of it. */
  lemma ConsSorted(a: Row, s: seq<Row>, f: RankField)
    requires SortedBy(s, f) && (s == [] || Key(f, a) <= Key(f, s[0]))
    ensures SortedBy([a] + s, f)
  {
    var r := [a] + s;
    forall i, j | 0 <= i < j < |r| ensures Key(f, r[i]) <= Key(f, r[j]) {
      if i == 0 && j > 1 {
        assert Key(f, s[0]) <= Key(f, s[j - 1]);
      }
    }
  }

  /** Inserting into a sorted table keeps it sorted. */
  lemma {:induction false} InsertSorted(x: Row, s: seq<Row>, f: RankField)
    requires SortedBy(s, f)
    ensures SortedBy(Insert(x, s, f), f)
  {
    if s == [] || Key(f, x) <= Key(f, s[0]) {
      ConsSorted(x, s, f);
    } else {
      var t := s[1..];
      SortedTail(s, f);
      InsertSorted(x, t, f);
      var rest := Insert(x, t, f);
      assert Key(f, s[0]) <= Key(f, rest[0]);
      ConsSorted(s[0], rest, f);
    }
  }

  /** Inserting adds `x` and loses nothing. */
  lemma {:induction false} InsertPermutes(x: Row, s: seq<Row>, f: RankField)
    ensures multiset(Insert(x, s, f)) == multiset(s) + multiset{x}
  {
    if s != [] && Key(f, x) > Key(f, s[0]) {
      var t := s[1..];
      InsertPermutes(x, t, f);
      assert Insert(x, s, f) == [s[0]] + Insert(x, t, f);
      assert s == [s[0]] + t;
      assert multiset(s) == multiset{s[0]} + multiset(t);
    }
  }

  /** `df.sort_values(by=key)`. */
  function SortBy(s: seq<Row>, f: RankField): (r: seq<Row>)
    ensures |r| == |s|
  {
    if s == [] then [] else Insert(s[0], SortBy(s[1..], f), f)
  }

  /** Sorting orders the rows by the key. */
  lemma {:induction false} SortIsSorted(s: seq<Row>, f: RankField)
    ensures SortedBy(SortBy(s, f), f)
  {
    if s != [] {
      SortIsSorted(s[1..], f);
      InsertSorted(s[0], SortBy(s[1..], f), f);
    }
  }

  /** Sorting rearranges the rows and loses none. */
  lemma {:induction false} SortPermutes(s: seq<Row>, f: RankField)
    ensures multiset(SortBy(s, f)) == multiset(s)
  {
    if s != [] {
      var t := s[1..];
      SortPermutes(t, f);
      InsertPermutes(s[0], SortBy(t, f), f);
      assert SortBy(s, f) == Insert(s[0], SortBy(t, f), f);
      assert s == [s[0]] + t;
      assert multiset(s) == multiset(t) + multiset{s[0]};
    }
  }

  /** `df[rank] = range(1, N + 1)`: the rows numbered in their current order. */
  function Positional(s: seq<Row>, f: RankField): (r: seq<Row>)
    ensures |r| == |s|
    ensures forall i :: 0 <= i < |s| ==> r[i] == SetRank(s[i], f, i + 1)
  {
    seq(|s|, i requires 0 <= i < |s| => SetRank(s[i], f, i + 1))
  }

  /** Numbering changes nothing but the rank column. */
  lemma PositionalUnranked(s: seq<Row>, f: RankField)
    ensures MapSeq(Unranked(f), Positional(s, f)) == MapSeq(Unranked(f), s)
  {
    var a, b := MapSeq(Unranked(f), Positional(s, f)), MapSeq(Unranked(f), s);
    forall i | 0 <= i < |s| ensures a[i] == b[i] {
      match f
      case EvEbitRank =>
      case RoicRank =>
      case MagicRank =>
    }
  }

  /** One ranking stage: sort by the key, then number the rows. The result
      is ordered by the key, carries ranks 1..N in order, and holds the same
      rows as the input apart from the rank column. */
  function RankBy(s: seq<Row>, f: RankField): (r: seq<Row>)
    ensures |r| == |s|
    ensures forall i :: 0 <= i < |r| ==> GetRank(r[i], f) == i + 1
    ensures SortedBy(r, f)
    ensures multiset(MapSeq(Unranked(f), r)) == multiset(MapSeq(Unranked(f), s))
  {
    var sorted := SortBy(s, f);
    SortIsSorted(s, f);
    SortPermutes(s, f);
    PositionalUnranked(sorted, f);
    PermutationMap(Unranked(f), sorted, s);
    Positional(sorted, f)
  }

  /** A column a ranking stage does not write keeps its multiset of values. */
  lemma RankValuesKept<B>(a: seq<Row>, b: seq<Row>, f: RankField, g: Row -> B)
    requires multiset(MapSeq(Unranked(f), a)) == multiset(MapSeq(Unranked(f), b))
    requires forall x :: g(Unranked(f)(x)) == g(x)
    ensures multiset(MapSeq(g, a)) == multiset(MapSeq(g, b))
  {
    PermutationMap(g, MapSeq(Unranked(f), a), MapSeq(Unranked(f), b));
    MapSeqAbsorb(Unranked(f), g, a);
    MapSeqAbsorb(Unranked(f), g, b);
  }

  /** Every input row appears in the output with only its rank set, and
      the other way round. */
  lemma RankedRowsAreInputRows(s: seq<Row>, f: RankField, x: Row)
    ensures (exists j :: 0 <= j < |s| && Unranked(f)(s[j]) == Unranked(f)(x))
        <==> (exists k :: 0 <= k < |s| && Unranked(f)(RankBy(s, f)[k]) == Unranked(f)(x))
  {
    var r := RankBy(s, f);
    var a, b := MapSeq(Unranked(f), s), MapSeq(Unranked(f), r);
    var y := Unranked(f)(x);
    if j :| 0 <= j < |s| && a[j] == y {
      assert y in multiset(a);
      assert y in multiset(b);
      var k :| 0 <= k < |b| && b[k] == y;
    }
    if k :| 0 <= k < |s| && b[k] == y {
      assert y in multiset(b);
      assert y in multiset(a);
      var j :| 0 <= j < |a| && a[j] == y;
    }
  }

  /** The row ranked 1 has the best key in the whole input. */
  lemma {:induction false} FirstRankedIsBest(s: seq<Row>, f: RankField)
    requires s != []
    ensures forall x :: x in s ==> Key(f, RankBy(s, f)[0]) <= Key(f, x)
  {
    var r := RankBy(s, f);
    forall x | x in s ensures Key(f, r[0]) <= Key(f, x) {
      var j :| 0 <= j < |s| && s[j] == x;
      RankedRowsAreInputRows(s, f, x);
      var k :| 0 <= k < |s| && Unranked(f)(r[k]) == Unranked(f)(x);
      assert Key(f, r[k]) == Key(f, Unranked(f)(r[k])) == Key(f, Unranked(f)(x)) == Key(f, x);
    }
  }

  lemma InsertFront(x: Row, s: seq<Row>, f: RankField)
    requires s == [] || Key(f, x) <= Key(f, s[0])
    ensures Insert(x, s, f) == [x] + s
  {
  }

  /** Sorting a sorted table leaves it as it is. */
  lemma {:induction false} SortSorted(s: seq<Row>, f: RankField)
    requires SortedBy(s, f)
    ensures SortBy(s, f) == s
  {
    if s != [] {
      var t := s[1..];
      SortedTail(s, f);
      SortSorted(t, f);
      InsertFront(s[0], t, f);
    }
  }

  /** Numbering rows that already carry their positions changes nothing. */
  lemma PositionalFixed(s: seq<Row>, f: RankField)
    requires forall i :: 0 <= i < |s| ==> GetRank(s[i], f) == i + 1
    ensures Positional(s, f) == s
  {
    var p := Positional(s, f);
    forall i | 0 <= i < |s| ensures p[i] == s[i] {
      match f
      case EvEbitRank =>
      case RoicRank =>
      case MagicRank =>
    }
  }

  /** Running a ranking stage a second time changes nothing. */
  lemma RankByIdempotent(s: seq<Row>, f: RankField)
    ensures RankBy(RankBy(s, f), f) == RankBy(s, f)
  {
    var r := RankBy(s, f);
    SortSorted(r, f);
    PositionalFixed(r, f);
    assert RankBy(r, f) == Positional(SortBy(r, f), f);
  }

  /** The EV/EBIT ranking: ascending EV/EBIT, rank 1 the cheapest. */
  function RankByEvEbit(df: seq<Row>): (r: seq<Row>)
    ensures |r| == |df|
    ensures forall i :: 0 <= i < |r| ==> r[i].evByEbitRanking == i + 1
    ensures forall i, j :: 0 <= i < j < |r| ==> r[i].evByEbit <= r[j].evByEbit
    ensures multiset(MapSeq(Unranked(EvEbitRank), r)) == multiset(MapSeq(Unranked(EvEbitRank), df))
  {
    var r := RankBy(df, EvEbitRank);
    assert forall i :: 0 <= i < |r| ==> GetRank(r[i], EvEbitRank) == r[i].evByEbitRanking;
    assert forall i :: 0 <= i < |r| ==> Key(EvEbitRank, r[i]) == r[i].evByEbit;
    r
  }

  /** The ROIC ranking: descending ROIC, rank 1 the best return. */
  function RankByRoic(df: seq<Row>): (r: seq<Row>)
    ensures |r| == |df|
    ensures forall i :: 0 <= i < |r| ==> r[i].roicRanking == i + 1
    ensures forall i, j :: 0 <= i < j < |r| ==> r[i].roic >= r[j].roic
    ensures multiset(MapSeq(Unranked(RoicRank), r)) == multiset(MapSeq(Unranked(RoicRank), df))
  {
    var r := RankBy(df, RoicRank);
    assert forall i :: 0 <= i < |r| ==> GetRank(r[i], RoicRank) == r[i].roicRanking;
    assert forall i :: 0 <= i < |r| ==> Key(RoicRank, r[i]) == -r[i].roic;
    r
  }

  /** The magic score of one row. */
  function WithMagicValue(row: Row): (r: Row)
    ensures r.magicValue == row.evByEbitRanking + row.roicRanking
    ensures r.(magicValue := row.magicValue) == row
  {
    row.(magicValue := row.evByEbitRanking + row.roicRanking)
  }

  /** A score that agrees with the two ranks still agrees after the magic ranking. */
  lemma ScoresSurviveRanking(scored: seq<Row>)
    requires forall i :: 0 <= i < |scored| ==> scored[i].magicValue == scored[i].evByEbitRanking + scored[i].roicRanking
    ensures var r := RankBy(scored, MagicRank);
      forall i :: 0 <= i < |r| ==> r[i].magicValue == r[i].evByEbitRanking + r[i].roicRanking
  {
    var r := RankBy(scored, MagicRank);
    forall i | 0 <= i < |r|
      ensures r[i].magicValue == r[i].evByEbitRanking + r[i].roicRanking
    {
      RankedRowsAreInputRows(scored, MagicRank, r[i]);
      var j :| 0 <= j < |scored| && Unranked(MagicRank)(scored[j]) == Unranked(MagicRank)(r[i]);
      assert Unranked(MagicRank)(r[i]).magicValue == r[i].magicValue;
      assert Unranked(MagicRank)(scored[j]).magicValue == scored[j].magicValue;
    }
  }

  /** The magic ranking: each row scored by the sum of its two ranks, then
      the rows ranked by ascending score. */
  function RankByMagic(df: seq<Row>): (r: seq<Row>)
    ensures |r| == |df|
    ensures forall i :: 0 <= i < |r| ==> r[i].magicRanking == i + 1
    ensures forall i :: 0 <= i < |r| ==> r[i].magicValue == r[i].evByEbitRanking + r[i].roicRanking
    ensures forall i, j :: 0 <= i < j < |r| ==> r[i].magicValue <= r[j].magicValue
    ensures multiset(MapSeq(Unranked(MagicRank), r)) == multiset(MapSeq(Unranked(MagicRank), MapSeq(WithMagicValue, df)))
  {
    var scored := MapSeq(WithMagicValue, df);
    var r := RankBy(scored, MagicRank);
    assert forall i :: 0 <= i < |r| ==> GetRank(r[i], MagicRank) == r[i].magicRanking;
    assert forall i :: 0 <= i < |r| ==> Key(MagicRank, r[i]) == r[i].magicValue as real;
    ScoresSurviveRanking(scored);
    r
  }
}
