/**
  The ball-by-ball delivery table the dashboard reads: one record per ball
  bowled, with the columns the filters and the summary tables look at.
 */
module Deliveries {

  /** A cell that may be missing in the data file (pandas NaN). */
  datatype Option<+T> = None | Some(value: T)

  /**
    One delivery. The text columns can be missing in the file; the over
    number and the runs scored are numeric. Runs are taken to be present
    and non-negative.
   */
  datatype Row = Row(
    battingPlayer: Option<string>,
    bowlingTypeId: Option<string>,
    bowlerPlayer: Option<string>,
    overNumber: int,
    runsScored: nat,
    battingFeetId: Option<string>,
    lengthTypeId: Option<string>,
    lineTypeId: Option<string>)

  /** The columns a summary table is grouped by. */
  datatype KeyColumn = BattingFeet | LengthType | LineType

  /** The value of the grouping column `col` in row `r`. */
  function KeyOf(r: Row, col: KeyColumn): Option<string>
  {
    match col
    case BattingFeet => r.battingFeetId
    case LengthType => r.lengthTypeId
    case LineType => r.lineTypeId
  }
}
