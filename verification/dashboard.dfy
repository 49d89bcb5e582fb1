/**
  The page: the filtered table summarised three times, by batting feet,
  by length type and by line type. Rendering is not modelled; the tables
  themselves are.
 */
module Dashboard {
  import opened Deliveries
  import opened Selection
  import opened StrikeRates
  import opened Filtering
  import opened Grouping

  /** The three summary tables the page shows. */
  datatype Summaries = Summaries(
    byBattingFeet: seq<GroupRow>,
    byLengthType: seq<GroupRow>,
    byLineType: seq<GroupRow>)

  function Table(s: Summaries, col: KeyColumn): seq<GroupRow>
  {
    match col
    case BattingFeet => s.byBattingFeet
    case LengthType => s.byLengthType
    case LineType => s.byLineType
  }

  /** Filters the deliveries, then builds the three summary tables from what is left. */
  function BuildSummaries(rows: seq<Row>, cfg: Config): (s: Summaries)
    ensures ByStrikeRateDesc(s.byBattingFeet) && KeysDistinct(s.byBattingFeet)
    ensures ByStrikeRateDesc(s.byLengthType) && KeysDistinct(s.byLengthType)
    ensures ByStrikeRateDesc(s.byLineType) && KeysDistinct(s.byLineType)
  {
    var filtered := ApplyFilters(rows, cfg);
    GroupTableKeysDistinct(filtered, BattingFeet);
    GroupTableKeysDistinct(filtered, LengthType);
    GroupTableKeysDistinct(filtered, LineType);
    Summaries(
      GroupTable(filtered, BattingFeet),
      GroupTable(filtered, LengthType),
      GroupTable(filtered, LineType))
  }

  /**
    Each line of each table counts exactly the deliveries that match the
    sidebar and carry the line's value, and adds up their runs; the lines
    together count every matching delivery with a value in that column.
   */
  lemma SummariesCountMatchingRows(rows: seq<Row>, cfg: Config, col: KeyColumn)
    ensures forall i :: 0 <= i < |Table(BuildSummaries(rows, cfg), col)| ==>
      var g := Table(BuildSummaries(rows, cfg), col)[i];
      && g.ballsFaced == |Keep(rows, And(MatchTest(cfg), KeyTest(col, g.key)))|
      && g.totalRuns == RunsIn(Keep(rows, And(MatchTest(cfg), KeyTest(col, g.key))))
    ensures SumBy(Table(BuildSummaries(rows, cfg), col), Balls)
      == |Keep(rows, And(MatchTest(cfg), KeyedTest(col)))|
  {
    var filtered := ApplyFilters(rows, cfg);
    var t := Table(BuildSummaries(rows, cfg), col);
    assert t == GroupTable(filtered, col);
    FilterIsOrderedSelection(rows, cfg, Criteria(cfg));
    forall i | 0 <= i < |t|
      ensures t[i].ballsFaced == |Keep(rows, And(MatchTest(cfg), KeyTest(col, t[i].key)))|
      ensures t[i].totalRuns == RunsIn(Keep(rows, And(MatchTest(cfg), KeyTest(col, t[i].key))))
    {
      assert Describes(filtered, col, t[i]);
      KeepKeep(rows, MatchTest(cfg), KeyTest(col, t[i].key));
    }
    PartitionTotals(filtered, col);
    KeepKeep(rows, MatchTest(cfg), KeyedTest(col));
  }

  /** A delivery for the worked example: batting feet "Front", the given runs. */
  function FrontFootBall(runs: nat): Row
  {
    Row(Some("X"), Some("Pace"), Some("Y"), 1, runs, Some("Front"), None, None)
  }

  function ExampleRows(): seq<Row>
  {
    [FrontFootBall(4), FrontFootBall(0), FrontFootBall(6)]
  }

  lemma ExampleKeys()
    ensures DistinctKeys(ExampleRows(), BattingFeet) == ["Front"]
  {
    var rows := ExampleRows();
    assert rows[..2][..1][..0] == [];
    assert DistinctKeys(rows[..2][..1], BattingFeet) == ["Front"];
    assert DistinctKeys(rows[..2], BattingFeet) == ["Front"];
  }

  lemma ExampleGroup()
    ensures Members(ExampleRows(), BattingFeet, "Front") == ExampleRows()
    ensures RunsIn(ExampleRows()) == 10
  {
    var rows := ExampleRows();
    forall i | 0 <= i < |rows|
      ensures KeyTest(BattingFeet, "Front")(rows[i])
    {
    }
    KeepAll(rows, KeyTest(BattingFeet, "Front"));
    ExampleRuns();
  }

  lemma ExampleRuns()
    ensures RunsIn(ExampleRows()) == 10
  {
    var rows := ExampleRows();
    assert rows[..2][..1][..0] == [];
    assert SumBy(rows[..2][..1], Runs) == 4;
    assert SumBy(rows[..2], Runs) == 4;
  }

  /** Four, nought and six off three balls: one line, 10 runs, 3 balls, strike rate 333.33. */
  lemma WorkedExample()
    ensures GroupTable(ExampleRows(), BattingFeet) == [GroupRow("Front", 10, 3, 33333)]
  {
    var rows := ExampleRows();
    ExampleKeys();
    ExampleGroup();
    assert StrikeRate(10, 3) == 33333;
    var g := GroupRow("Front", 10, 3, 33333);
    assert Summarise(rows, BattingFeet, "Front") == g;
    assert ["Front"][..0] == [];
    assert Groups(rows, BattingFeet) == [g];
    assert [g][..0] == [];
    assert SortByStrikeRate([g]) == [g];
  }
}
