/**
  `make_group_table`: group the rows by one column, sum the runs and count
  the balls per group, add the strike rate, and order the groups by strike
  rate, highest first. Rows whose grouping cell is missing belong to no
  group, as pandas `groupby` drops them.
 */
module Grouping {
  import opened Deliveries
  import opened Selection
  import opened StrikeRates

  /** One line of a summary table; `strikeRate` is in hundredths. */
  datatype GroupRow = GroupRow(key: string, totalRuns: nat, ballsFaced: nat, strikeRate: nat)

  predicate HasKey(col: KeyColumn, k: string, r: Row)
  {
    KeyOf(r, col) == Some(k)
  }

  /** Named function values for `Keep`, so that separate calls compare equal. */
  function KeyTest(col: KeyColumn, k: string): Row -> bool
  {
    r => HasKey(col, k, r)
  }

  /** The row has a grouping value at all. */
  predicate Keyed(col: KeyColumn, r: Row)
  {
    KeyOf(r, col).Some?
  }

  function KeyedTest(col: KeyColumn): Row -> bool
  {
    r => Keyed(col, r)
  }

  /** The row's grouping value is one of `ks`. */
  predicate KeyAmong(col: KeyColumn, ks: seq<string>, r: Row)
  {
    KeyOf(r, col).Some? && KeyOf(r, col).value in ks
  }

  function KeyAmongTest(col: KeyColumn, ks: seq<string>): Row -> bool
  {
    r => KeyAmong(col, ks, r)
  }

  /** Some row carries the grouping value `k`. */
  predicate Occurs(rows: seq<Row>, col: KeyColumn, k: string)
  {
    exists i :: 0 <= i < |rows| && HasKey(col, k, rows[i])
  }

  /** The rows of group `k`, in table order. */
  function Members(rows: seq<Row>, col: KeyColumn, k: string): seq<Row>
  {
    Keep(rows, KeyTest(col, k))
  }

  function Runs(r: Row): nat
  {
    r.runsScored
  }

  /** Total runs over some rows. */
  function RunsIn(rows: seq<Row>): nat
  {
    SumBy(rows, Runs)
  }

  function Balls(g: GroupRow): nat
  {
    g.ballsFaced
  }

  function TotalRuns(g: GroupRow): nat
  {
    g.totalRuns
  }

  /** The grouping values that occur, each once. */
  function DistinctKeys(rows: seq<Row>, col: KeyColumn): (ks: seq<string>)
    ensures forall i, j :: 0 <= i < j < |ks| ==> ks[i] != ks[j]
    ensures forall k :: k in ks <==> Occurs(rows, col, k)
    decreases |rows|
  {
    if rows == [] then []
    else
      var n := |rows| - 1;
      var ks := DistinctKeys(rows[..n], col);
      assert forall i :: 0 <= i < n ==> rows[..n][i] == rows[i];
      assert forall k :: Occurs(rows, col, k) <==> Occurs(rows[..n], col, k) || HasKey(col, k, rows[n]);
      match KeyOf(rows[n], col)
      case Some(k) => if k in ks then ks else ks + [k]
      case None => ks
  }

  /**
    `g` is the summary line of its key: it has at least one ball, its ball
    count and run total are those of the rows carrying its key, and its
    strike rate is theirs.
   */
  predicate Describes(rows: seq<Row>, col: KeyColumn, g: GroupRow)
  {
    var group := Members(rows, col, g.key);
    && g.ballsFaced == |group|
    && g.ballsFaced >= 1
    && g.totalRuns == RunsIn(group)
    && g.strikeRate == StrikeRate(g.totalRuns, g.ballsFaced)
  }

  /** One line of the `agg(["sum", "count"])` result, with its strike rate. */
  function Summarise(rows: seq<Row>, col: KeyColumn, k: string): (g: GroupRow)
    requires Occurs(rows, col, k)
    ensures g.key == k
    ensures Describes(rows, col, g)
  {
    var group := Members(rows, col, k);
    KeepMembers(rows, KeyTest(col, k));
    assert exists i :: 0 <= i < |rows| && rows[i] in group;
    var runs := RunsIn(group);
    GroupRow(k, runs, |group|, StrikeRate(runs, |group|))
  }

  /** The summary lines of the keys `ks`, in the order of `ks`. */
  function SummariseAll(rows: seq<Row>, col: KeyColumn, ks: seq<string>): (gs: seq<GroupRow>)
    requires forall k :: k in ks ==> Occurs(rows, col, k)
    ensures |gs| == |ks|
    ensures forall i :: 0 <= i < |gs| ==> gs[i].key == ks[i]
    decreases |ks|
  {
    if ks == [] then []
    else
      var n := |ks| - 1;
      SummariseAll(rows, col, ks[..n]) + [Summarise(rows, col, ks[n])]
  }

  /** Every line of `SummariseAll` describes the rows carrying its key. */
  lemma {:induction false} SummariseAllDescribes(rows: seq<Row>, col: KeyColumn, ks: seq<string>)
    requires forall k :: k in ks ==> Occurs(rows, col, k)
    ensures AllDescribe(rows, col, SummariseAll(rows, col, ks))
    decreases |ks|
  {
    if ks != [] {
      var n := |ks| - 1;
      SummariseAllDescribes(rows, col, ks[..n]);
      var gs := SummariseAll(rows, col, ks);
      assert gs == SummariseAll(rows, col, ks[..n]) + [Summarise(rows, col, ks[n])];
    }
  }

  /** The grouped table before sorting: one line per occurring key. */
  function Groups(rows: seq<Row>, col: KeyColumn): seq<GroupRow>
  {
    SummariseAll(rows, col, DistinctKeys(rows, col))
  }

  predicate KeysDistinct(gs: seq<GroupRow>)
  {
    forall i, j :: 0 <= i < j < |gs| ==> gs[i].key != gs[j].key
  }

  predicate ByStrikeRateDesc(gs: seq<GroupRow>)
  {
    forall i, j :: 0 <= i < j < |gs| ==> gs[i].strikeRate >= gs[j].strikeRate
  }

  /** Puts `g` into a table already ordered by strike rate, highest first. */
  function Insert(g: GroupRow, s: seq<GroupRow>): (out: seq<GroupRow>)
    requires ByStrikeRateDesc(s)
    ensures ByStrikeRateDesc(out)
    ensures multiset(out) == multiset(s) + multiset{g}
    decreases |s|
  {
    if s == [] then [g]
    else if g.strikeRate >= s[0].strikeRate then
      ConsOrdered(g, s);
      [g] + s
    else
      var rest := Insert(g, s[1..]);
      assert s == [s[0]] + s[1..];
      HeadBoundsPermutation(s, g, rest);
      ConsOrdered(s[0], rest);
      [s[0]] + rest
  }

  /** Inserting a line with a fresh key into a key-distinct table keeps the keys distinct. */
  lemma {:induction false} InsertKeysDistinct(g: GroupRow, s: seq<GroupRow>)
    requires ByStrikeRateDesc(s) && KeysDistinct(s) && KeyAbsent(s, g.key)
    ensures KeysDistinct(Insert(g, s))
    decreases |s|
  {
    if s == [] {
    } else if g.strikeRate >= s[0].strikeRate {
      ConsKeysDistinct(g, s);
    } else {
      var rest := Insert(g, s[1..]);
      assert s == [s[0]] + s[1..];
      assert KeysDistinct(s[1..]) && KeyAbsent(s[1..], g.key);
      InsertKeysDistinct(g, s[1..]);
      HeadKeyFresh(s, g, rest);
      ConsKeysDistinct(s[0], rest);
    }
  }

  /** No line of `s` has a strike rate above `sr`. */
  predicate NoneAbove(s: seq<GroupRow>, sr: nat)
  {
    forall i :: 0 <= i < |s| ==> s[i].strikeRate <= sr
  }

  /** Putting a line no lower than the rest in front keeps the order. */
  lemma ConsOrdered(h: GroupRow, s: seq<GroupRow>)
    requires ByStrikeRateDesc(s)
    requires NoneAbove(s, h.strikeRate) || (s != [] && h.strikeRate >= s[0].strikeRate)
    ensures ByStrikeRateDesc([h] + s)
  {
    var t := [h] + s;
    forall i, j | 0 <= i < j < |t|
      ensures t[i].strikeRate >= t[j].strikeRate
    {
      assert t[j] == s[j - 1];
      if i > 0 {
        assert t[i] == s[i - 1];
      }
    }
  }

  predicate KeyAbsent(s: seq<GroupRow>, k: string)
  {
    forall i :: 0 <= i < |s| ==> s[i].key != k
  }

  /** Putting a line with a fresh key in front keeps the keys distinct. */
  lemma ConsKeysDistinct(h: GroupRow, s: seq<GroupRow>)
    ensures KeysDistinct(s) && KeyAbsent(s, h.key) ==> KeysDistinct([h] + s)
  {
    if KeysDistinct(s) && KeyAbsent(s, h.key) {
      var t := [h] + s;
      forall i, j | 0 <= i < j < |t|
        ensures t[i].key != t[j].key
      {
        assert t[j] == s[j - 1];
        if i > 0 {
          assert t[i] == s[i - 1];
        }
      }
    }
  }

  /** A permutation of the tail of a key-distinct `s` plus a line with a fresh key avoids the head's key. */
  lemma HeadKeyFresh(s: seq<GroupRow>, g: GroupRow, rest: seq<GroupRow>)
    requires s != [] && KeysDistinct(s) && KeyAbsent(s, g.key)
    requires multiset(rest) == multiset(s[1..]) + multiset{g}
    ensures KeyAbsent(rest, s[0].key)
  {
    forall j | 0 <= j < |rest|
      ensures rest[j].key != s[0].key
    {
      assert rest[j] in multiset(rest);
      if rest[j] != g {
        assert rest[j] in multiset(s[1..]);
        var m :| 0 <= m < |s| - 1 && s[1..][m] == rest[j];
        assert rest[j] == s[m + 1];
      }
    }
  }

  /** A permutation of the tail of `s` plus a line no higher than its head stays no higher than the head. */
  lemma HeadBoundsPermutation(s: seq<GroupRow>, g: GroupRow, rest: seq<GroupRow>)
    requires s != [] && ByStrikeRateDesc(s) && g.strikeRate <= s[0].strikeRate
    requires multiset(rest) == multiset(s[1..]) + multiset{g}
    ensures NoneAbove(rest, s[0].strikeRate)
  {
    forall j | 0 <= j < |rest|
      ensures rest[j].strikeRate <= s[0].strikeRate
    {
      assert rest[j] in multiset(rest);
      if rest[j] != g {
        assert rest[j] in multiset(s[1..]);
        assert rest[j] in s[1..];
      }
    }
  }

  /** Orders summary lines by strike rate, highest first. */
  function SortByStrikeRate(gs: seq<GroupRow>): (out: seq<GroupRow>)
    ensures ByStrikeRateDesc(out)
    ensures multiset(out) == multiset(gs)
    decreases |gs|
  {
    if gs == [] then []
    else
      var n := |gs| - 1;
      assert gs == gs[..n] + [gs[n]];
      Insert(gs[n], SortByStrikeRate(gs[..n]))
  }

  /** Sorting a key-distinct table keeps the keys distinct. */
  lemma {:induction false} SortKeysDistinct(gs: seq<GroupRow>)
    requires KeysDistinct(gs)
    ensures KeysDistinct(SortByStrikeRate(gs))
    decreases |gs|
  {
    if gs != [] {
      var n := |gs| - 1;
      assert KeysDistinct(gs[..n]);
      SortKeysDistinct(gs[..n]);
      LastKeyFresh(gs, SortByStrikeRate(gs[..n]));
      InsertKeysDistinct(gs[n], SortByStrikeRate(gs[..n]));
    }
  }

  /** In a key-distinct table, a permutation of all but the last line avoids the last line's key. */
  lemma LastKeyFresh(gs: seq<GroupRow>, sorted: seq<GroupRow>)
    requires gs != [] && KeysDistinct(gs)
    requires multiset(sorted) == multiset(gs[..|gs| - 1])
    ensures KeyAbsent(sorted, gs[|gs| - 1].key)
  {
    var n := |gs| - 1;
    forall j | 0 <= j < |sorted|
      ensures sorted[j].key != gs[n].key
    {
      assert sorted[j] in multiset(sorted);
      assert sorted[j] in gs[..n];
      var m :| 0 <= m < n && gs[..n][m] == sorted[j];
      assert sorted[j] == gs[m];
    }
  }

  /** Every line has at least one ball and summarises the rows carrying its key. */
  predicate AllDescribe(rows: seq<Row>, col: KeyColumn, gs: seq<GroupRow>)
  {
    forall i :: 0 <= i < |gs| ==> Describes(rows, col, gs[i])
  }

  /** There is a line for a value exactly when some row carries that value. */
  ghost predicate CoversKeys(rows: seq<Row>, col: KeyColumn, gs: seq<GroupRow>)
  {
    forall k :: (exists i :: 0 <= i < |gs| && gs[i].key == k) <==> Occurs(rows, col, k)
  }

  /** The unsorted grouped table already has distinct keys, one line per occurring value, each describing its group. */
  lemma GroupsFacts(rows: seq<Row>, col: KeyColumn)
    ensures KeysDistinct(Groups(rows, col))
    ensures AllDescribe(rows, col, Groups(rows, col))
    ensures CoversKeys(rows, col, Groups(rows, col))
  {
    var ks := DistinctKeys(rows, col);
    var gs := Groups(rows, col);
    SummariseAllDescribes(rows, col, ks);
    forall k
      ensures (exists i :: 0 <= i < |gs| && gs[i].key == k) <==> Occurs(rows, col, k)
    {
      if Occurs(rows, col, k) {
        var j :| 0 <= j < |ks| && ks[j] == k;
        assert gs[j].key == k;
      }
    }
  }

  /** Reordering keeps every line's description and the set of keys. */
  lemma PermutationKeepsFacts(rows: seq<Row>, col: KeyColumn, a: seq<GroupRow>, b: seq<GroupRow>)
    requires multiset(a) == multiset(b)
    requires AllDescribe(rows, col, a) && CoversKeys(rows, col, a)
    ensures AllDescribe(rows, col, b) && CoversKeys(rows, col, b)
  {
    forall i | 0 <= i < |b|
      ensures exists j :: 0 <= j < |a| && b[i] == a[j]
    {
      assert b[i] in multiset(a);
    }
    forall j | 0 <= j < |a|
      ensures exists i :: 0 <= i < |b| && b[i] == a[j]
    {
      assert a[j] in multiset(b);
    }
  }

  /**
    `make_group_table(df, col)`: one line per grouping value that occurs,
    each describing exactly the rows with that value, ordered by strike
    rate, highest first.
   */
  function GroupTable(rows: seq<Row>, col: KeyColumn): (out: seq<GroupRow>)
    ensures ByStrikeRateDesc(out)
    ensures CoversKeys(rows, col, out)
    ensures AllDescribe(rows, col, out)
  {
    var groups := Groups(rows, col);
    GroupsFacts(rows, col);
    var out := SortByStrikeRate(groups);
    PermutationKeepsFacts(rows, col, groups, out);
    out
  }

  /** No value has two lines in the table. */
  lemma GroupTableKeysDistinct(rows: seq<Row>, col: KeyColumn)
    ensures KeysDistinct(GroupTable(rows, col))
  {
    GroupsFacts(rows, col);
    SortKeysDistinct(Groups(rows, col));
  }

  /** The rows keyed among `init + [k]` are those keyed among `init` or keyed `k`. */
  lemma KeyAmongSnoc(rows: seq<Row>, col: KeyColumn, init: seq<string>, k: string)
    ensures Keep(rows, KeyAmongTest(col, init + [k])) == Keep(rows, Or(KeyAmongTest(col, init), KeyTest(col, k)))
  {
    forall i | 0 <= i < |rows|
      ensures KeyAmongTest(col, init + [k])(rows[i]) == Or(KeyAmongTest(col, init), KeyTest(col, k))(rows[i])
    {
      var v := KeyOf(rows[i], col);
      assert v.Some? ==> (v.value in init + [k] <==> v.value in init || v.value == k);
    }
    KeepCongruence(rows, KeyAmongTest(col, init + [k]), Or(KeyAmongTest(col, init), KeyTest(col, k)));
  }

  /** Adding a fresh key adds its group's rows and runs to those keyed among the others. */
  lemma KeyAmongSnocTotals(rows: seq<Row>, col: KeyColumn, init: seq<string>, k: string)
    requires k !in init
    ensures |Keep(rows, KeyAmongTest(col, init + [k]))|
      == |Keep(rows, KeyAmongTest(col, init))| + |Members(rows, col, k)|
    ensures RunsIn(Keep(rows, KeyAmongTest(col, init + [k])))
      == RunsIn(Keep(rows, KeyAmongTest(col, init))) + RunsIn(Members(rows, col, k))
  {
    assert forall i :: 0 <= i < |rows| ==> !(KeyAmongTest(col, init)(rows[i]) && KeyTest(col, k)(rows[i]));
    KeepDisjointCount(rows, KeyAmongTest(col, init), KeyTest(col, k));
    KeepDisjointSum(rows, KeyAmongTest(col, init), KeyTest(col, k), Runs);
    KeyAmongSnoc(rows, col, init, k);
  }

  /** The line for one more key adds its balls and runs to the lines before it. */
  lemma SummariseAllSnocTotals(rows: seq<Row>, col: KeyColumn, ks: seq<string>)
    requires ks != []
    requires forall k :: k in ks ==> Occurs(rows, col, k)
    ensures SumBy(SummariseAll(rows, col, ks), Balls)
      == SumBy(SummariseAll(rows, col, ks[..|ks| - 1]), Balls) + |Members(rows, col, ks[|ks| - 1])|
    ensures SumBy(SummariseAll(rows, col, ks), TotalRuns)
      == SumBy(SummariseAll(rows, col, ks[..|ks| - 1]), TotalRuns) + RunsIn(Members(rows, col, ks[|ks| - 1]))
  {
    var n := |ks| - 1;
    var g := Summarise(rows, col, ks[n]);
    SumBySnoc(SummariseAll(rows, col, ks[..n]), g, Balls);
    SumBySnoc(SummariseAll(rows, col, ks[..n]), g, TotalRuns);
  }

  /** The ball counts of the lines for the keys `ks` add up to the rows carrying one of those keys. */
  lemma {:induction false} SummariseAllBalls(rows: seq<Row>, col: KeyColumn, ks: seq<string>)
    requires forall k :: k in ks ==> Occurs(rows, col, k)
    requires forall i, j :: 0 <= i < j < |ks| ==> ks[i] != ks[j]
    ensures SumBy(SummariseAll(rows, col, ks), Balls) == |Keep(rows, KeyAmongTest(col, ks))|
    decreases |ks|
  {
    if ks == [] {
      KeepNone(rows, KeyAmongTest(col, ks));
    } else {
      var n := |ks| - 1;
      var init, k := ks[..n], ks[n];
      assert ks == init + [k];
      SummariseAllBalls(rows, col, init);
      SummariseAllSnocTotals(rows, col, ks);
      KeyAmongSnocTotals(rows, col, init, k);
    }
  }

  /** The run totals of the lines for the keys `ks` add up to the runs of the rows carrying one of those keys. */
  lemma {:induction false} SummariseAllRuns(rows: seq<Row>, col: KeyColumn, ks: seq<string>)
    requires forall k :: k in ks ==> Occurs(rows, col, k)
    requires forall i, j :: 0 <= i < j < |ks| ==> ks[i] != ks[j]
    ensures SumBy(SummariseAll(rows, col, ks), TotalRuns) == RunsIn(Keep(rows, KeyAmongTest(col, ks)))
    decreases |ks|
  {
    if ks == [] {
      KeepNone(rows, KeyAmongTest(col, ks));
      assert RunsIn([]) == 0;
    } else {
      var n := |ks| - 1;
      var init, k := ks[..n], ks[n];
      assert ks == init + [k];
      SummariseAllRuns(rows, col, init);
      SummariseAllSnocTotals(rows, col, ks);
      KeyAmongSnocTotals(rows, col, init, k);
    }
  }

  /**
    The groups partition the rows that have a grouping value: their ball
    counts add up to the number of such rows and their runs to those rows'
    runs. Rows with a missing value are in no group.
   */
  lemma PartitionTotals(rows: seq<Row>, col: KeyColumn)
    ensures SumBy(GroupTable(rows, col), Balls) == |Keep(rows, KeyedTest(col))|
    ensures SumBy(GroupTable(rows, col), TotalRuns) == RunsIn(Keep(rows, KeyedTest(col)))
  {
    var ks := DistinctKeys(rows, col);
    SumByPermutation(GroupTable(rows, col), Groups(rows, col), Balls);
    SumByPermutation(GroupTable(rows, col), Groups(rows, col), TotalRuns);
    SummariseAllBalls(rows, col, ks);
    SummariseAllRuns(rows, col, ks);
    forall i | 0 <= i < |rows|
      ensures KeyAmongTest(col, ks)(rows[i]) == KeyedTest(col)(rows[i])
    {
      if Keyed(col, rows[i]) {
        assert Occurs(rows, col, KeyOf(rows[i], col).value);
      }
    }
    KeepCongruence(rows, KeyAmongTest(col, ks), KeyedTest(col));
  }

  /** Every row with a grouping value is counted in exactly one line of the table. */
  lemma RowInExactlyOneGroup(rows: seq<Row>, col: KeyColumn, i: nat)
    requires i < |rows| && Keyed(col, rows[i])
    ensures exists j :: 0 <= j < |GroupTable(rows, col)| && GroupTable(rows, col)[j].key == KeyOf(rows[i], col).value
    ensures forall j, j' :: 0 <= j < j' < |GroupTable(rows, col)| ==>
      GroupTable(rows, col)[j].key != KeyOf(rows[i], col).value || GroupTable(rows, col)[j'].key != KeyOf(rows[i], col).value
  {
    var t := GroupTable(rows, col);
    GroupTableKeysDistinct(rows, col);
    var v := KeyOf(rows[i], col).value;
    assert Occurs(rows, col, v);
    assert exists j :: 0 <= j < |t| && t[j].key == v;
  }
}
