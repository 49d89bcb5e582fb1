/**
  The sidebar filters: three optional multiselects (batting player,
  bowling type, bowler) and an over-number range, applied one after
  another to a copy of the full table. An empty multiselect is skipped;
  the over range is always applied.
 */
module Filtering {
  import opened Deliveries
  import opened Selection

  /** What the sidebar widgets hand to the filter block. */
  datatype Config = Config(
    battingPlayers: set<string>,
    bowlingTypes: set<string>,
    bowlers: set<string>,
    lo: int,
    hi: int)

  /** One filtering step of the source. */
  datatype Criterion =
    | BattingPlayerIn(players: set<string>)
    | BowlingTypeIn(types: set<string>)
    | BowlerIn(bowlers: set<string>)
    | OverBetween(lo: int, hi: int)

  /**
    Membership as `isin` computes it for these selections: the options come
    from `dropna().unique()`, so no selection holds a missing value and a
    missing cell is in none.
   */
  predicate IsIn(v: Option<string>, choices: set<string>)
  {
    v.Some? && v.value in choices
  }

  /** The boolean mask a criterion computes for one row. */
  predicate Admits(c: Criterion, r: Row)
  {
    match c
    case BattingPlayerIn(s) => IsIn(r.battingPlayer, s)
    case BowlingTypeIn(s) => IsIn(r.bowlingTypeId, s)
    case BowlerIn(s) => IsIn(r.bowlerPlayer, s)
    case OverBetween(lo, hi) => lo <= r.overNumber <= hi
  }

  /** Whether the source applies the mask at all: a multiselect with no choices is skipped. */
  predicate Active(c: Criterion)
  {
    match c
    case BattingPlayerIn(s) => s != {}
    case BowlingTypeIn(s) => s != {}
    case BowlerIn(s) => s != {}
    case OverBetween(_, _) => true
  }

  /** A row survives a step when the step is skipped or its mask admits the row. */
  predicate Passes(c: Criterion, r: Row)
  {
    !Active(c) || Admits(c, r)
  }

  /*
    The `...Test` functions below name each predicate as a function value.
    Two separately written lambdas are never known to be equal, so `Keep`
    calls and lemmas about them share these named values instead.
   */
  function AdmitTest(c: Criterion): Row -> bool
  {
    r => Admits(c, r)
  }

  function PassTest(c: Criterion): Row -> bool
  {
    r => Passes(c, r)
  }

  /** One `if selection: df = df[df[col].isin(selection)]` step (the range step has no guard). */
  function Step(rows: seq<Row>, c: Criterion): (out: seq<Row>)
    ensures |out| <= |rows|
    ensures forall i :: 0 <= i < |out| ==> Passes(c, out[i])
  {
    if Active(c) then Keep(rows, AdmitTest(c)) else rows
  }

  /** The steps of the source's filter block, in the source's order. */
  function Criteria(cfg: Config): seq<Criterion>
  {
    [ BattingPlayerIn(cfg.battingPlayers),
      BowlingTypeIn(cfg.bowlingTypes),
      BowlerIn(cfg.bowlers),
      OverBetween(cfg.lo, cfg.hi) ]
  }

  /** Applies the steps `cs` one after another. */
  function Steps(rows: seq<Row>, cs: seq<Criterion>): seq<Row>
    decreases |cs|
  {
    if cs == [] then rows else Steps(Step(rows, cs[0]), cs[1..])
  }

  /** Empty or containing the value: the reading of a multiselect on its own. */
  predicate Selected(v: Option<string>, choices: set<string>)
  {
    choices == {} || IsIn(v, choices)
  }

  /**
    The conjunction the filter block is meant to compute: every non-empty
    multiselect contains the row's value and the over number lies in the
    inclusive range.
   */
  predicate Matches(cfg: Config, r: Row)
  {
    && Selected(r.battingPlayer, cfg.battingPlayers)
    && Selected(r.bowlingTypeId, cfg.bowlingTypes)
    && Selected(r.bowlerPlayer, cfg.bowlers)
    && cfg.lo <= r.overNumber <= cfg.hi
  }

  function MatchTest(cfg: Config): Row -> bool
  {
    r => Matches(cfg, r)
  }

  /** The filter block: batting players, then bowling types, then bowlers, then the over range. */
  function ApplyFilters(rows: seq<Row>, cfg: Config): (out: seq<Row>)
    ensures forall i :: 0 <= i < |out| ==> cfg.lo <= out[i].overNumber <= cfg.hi
    ensures forall i :: 0 <= i < |out| && cfg.battingPlayers != {} ==>
      out[i].battingPlayer.Some? && out[i].battingPlayer.value in cfg.battingPlayers
    ensures forall i :: 0 <= i < |out| && cfg.bowlingTypes != {} ==>
      out[i].bowlingTypeId.Some? && out[i].bowlingTypeId.value in cfg.bowlingTypes
    ensures forall i :: 0 <= i < |out| && cfg.bowlers != {} ==>
      out[i].bowlerPlayer.Some? && out[i].bowlerPlayer.value in cfg.bowlers
    ensures forall r :: r in out <==> r in rows && Matches(cfg, r)
    ensures cfg.lo > cfg.hi ==> out == []
  {
    var out := Step(Step(Step(Step(rows,
      BattingPlayerIn(cfg.battingPlayers)),
      BowlingTypeIn(cfg.bowlingTypes)),
      BowlerIn(cfg.bowlers)),
      OverBetween(cfg.lo, cfg.hi));
    FilterBlockIsKeep(rows, cfg);
    KeepMembers(rows, MatchTest(cfg));
    assert out != [] ==> cfg.lo <= out[0].overNumber <= cfg.hi;
    out
  }

  /** The four steps together keep exactly the matching rows, in input order. */
  lemma FilterBlockIsKeep(rows: seq<Row>, cfg: Config)
    ensures Step(Step(Step(Step(rows,
      BattingPlayerIn(cfg.battingPlayers)),
      BowlingTypeIn(cfg.bowlingTypes)),
      BowlerIn(cfg.bowlers)),
      OverBetween(cfg.lo, cfg.hi))
      == Keep(rows, MatchTest(cfg))
    ensures Steps(rows, Criteria(cfg)) == Keep(rows, MatchTest(cfg))
  {
    var cs := Criteria(cfg);
    var s1 := Step(rows, cs[0]);
    var s2 := Step(s1, cs[1]);
    var s3 := Step(s2, cs[2]);
    var s4 := Step(s3, cs[3]);
    assert cs[1..] == [cs[1], cs[2], cs[3]];
    assert cs[1..][1..] == [cs[2], cs[3]];
    assert cs[1..][1..][1..] == [cs[3]];
    assert cs[1..][1..][1..][1..] == [];
    assert Steps(s4, []) == s4;
    assert Steps(s3, [cs[3]]) == s4;
    assert Steps(s2, [cs[2], cs[3]]) == s4;
    assert Steps(s1, [cs[1], cs[2], cs[3]]) == s4;
    assert Steps(rows, cs) == s4;
    StepsIsKeep(rows, cs);
    forall i | 0 <= i < |rows|
      ensures PassAllTest(cs)(rows[i]) == MatchTest(cfg)(rows[i])
    {
      CriteriaMeanMatches(cfg, rows[i]);
    }
    KeepCongruence(rows, PassAllTest(cs), MatchTest(cfg));
  }

  /** Passing the four steps is matching the configuration. */
  lemma CriteriaMeanMatches(cfg: Config, r: Row)
    ensures PassesAll(Criteria(cfg), r) <==> Matches(cfg, r)
  {
    var cs := Criteria(cfg);
    if PassesAll(cs, r) {
      assert cs[0] in cs && cs[1] in cs && cs[2] in cs && cs[3] in cs;
      assert Passes(cs[0], r) && Passes(cs[1], r) && Passes(cs[2], r) && Passes(cs[3], r);
    }
  }

  /** A step keeps exactly the rows that pass it, in input order. */
  lemma StepIsKeep(rows: seq<Row>, c: Criterion)
    ensures Step(rows, c) == Keep(rows, PassTest(c))
  {
    if Active(c) {
      KeepCongruence(rows, AdmitTest(c), PassTest(c));
    } else {
      KeepAll(rows, PassTest(c));
    }
  }

  /** Passing every step in `cs`. */
  predicate PassesAll(cs: seq<Criterion>, r: Row)
  {
    forall c :: c in cs ==> Passes(c, r)
  }

  function PassAllTest(cs: seq<Criterion>): Row -> bool
  {
    r => PassesAll(cs, r)
  }

  /** Applying steps in turn keeps exactly the rows passing all of them, in input order. */
  lemma {:induction false} StepsIsKeep(rows: seq<Row>, cs: seq<Criterion>)
    ensures Steps(rows, cs) == Keep(rows, PassAllTest(cs))
    decreases |cs|
  {
    if cs == [] {
      KeepAll(rows, PassAllTest(cs));
    } else {
      var first := Step(rows, cs[0]);
      StepsIsKeep(first, cs[1..]);
      StepIsKeep(rows, cs[0]);
      KeepKeep(rows, PassTest(cs[0]), PassAllTest(cs[1..]));
      forall i | 0 <= i < |rows|
        ensures And(PassTest(cs[0]), PassAllTest(cs[1..]))(rows[i]) == PassAllTest(cs)(rows[i])
      {
        PassesAllCons(cs, rows[i]);
      }
      KeepCongruence(rows, And(PassTest(cs[0]), PassAllTest(cs[1..])), PassAllTest(cs));
    }
  }

  /** Passing a list of steps is passing its first step and then the rest. */
  lemma PassesAllCons(cs: seq<Criterion>, r: Row)
    requires cs != []
    ensures PassesAll(cs, r) <==> Passes(cs[0], r) && PassesAll(cs[1..], r)
  {
    assert cs == [cs[0]] + cs[1..];
  }

  /**
    The order of the steps does not matter, and neither does repeating one:
    two step lists with the same members filter alike.
   */
  lemma StepsOrderIrrelevant(rows: seq<Row>, cs: seq<Criterion>, ds: seq<Criterion>)
    requires forall c :: c in cs <==> c in ds
    ensures Steps(rows, cs) == Steps(rows, ds)
  {
    StepsIsKeep(rows, cs);
    StepsIsKeep(rows, ds);
    KeepCongruence(rows, PassAllTest(cs), PassAllTest(ds));
  }

  /** Two steps commute. */
  lemma StepsCommute(rows: seq<Row>, a: Criterion, b: Criterion)
    ensures Step(Step(rows, a), b) == Step(Step(rows, b), a)
  {
    StepsOrderIrrelevant(rows, [a, b], [b, a]);
    assert [a, b][1..] == [b] && [b, a][1..] == [a];
    assert [b][1..] == [] && [a][1..] == [];
    assert Steps(rows, [a, b]) == Steps(Step(rows, a), [b]) == Step(Step(rows, a), b);
    assert Steps(rows, [b, a]) == Steps(Step(rows, b), [a]) == Step(Step(rows, b), a);
  }

  /**
    The filter block keeps exactly the matching rows, in their original
    order, whatever order its four steps were written in.
   */
  lemma {:induction false} FilterIsOrderedSelection(rows: seq<Row>, cfg: Config, order: seq<Criterion>)
    requires forall c :: c in order <==> c in Criteria(cfg)
    ensures ApplyFilters(rows, cfg) == Keep(rows, MatchTest(cfg))
    ensures Steps(rows, order) == ApplyFilters(rows, cfg)
  {
    var cs := Criteria(cfg);
    FilterBlockIsKeep(rows, cfg);
    StepsOrderIrrelevant(rows, order, cs);
  }

  /** No multiselect choice and a range covering every over: the table is returned unchanged. */
  lemma NoRestrictionIsIdentity(rows: seq<Row>, cfg: Config)
    requires cfg.battingPlayers == {} && cfg.bowlingTypes == {} && cfg.bowlers == {}
    requires forall i :: 0 <= i < |rows| ==> cfg.lo <= rows[i].overNumber <= cfg.hi
    ensures ApplyFilters(rows, cfg) == rows
  {
    FilterIsOrderedSelection(rows, cfg, Criteria(cfg));
    KeepAll(rows, MatchTest(cfg));
  }
}
