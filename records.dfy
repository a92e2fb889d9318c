/**
 * The working table `work` (app.py): one record per sheet row, holding the
 * stringified member, the parsed date, the raw task cell, the four percentage
 * fields after `parse_percent`, the two numeric fields after `to_numeric`, and
 * the three derived columns `month`, the filled-in `completed` and
 * `ontime_flag`.
 */
module Records {
  import opened Cells
  import opened Numeric
  import opened Percent
  import opened Frame

  datatype Record = Record(
    member: string,
    date: Option<Date>,
    task: Cell,
    quality: Option<real>,
    revision: Option<real>,
    completed: real,
    ontime: Option<real>,
    efficiency: Option<real>,
    manhours: Option<real>,
    month: Option<Date>,
    ontimeFlag: Option<real>)

  /**
   * `astype(str)` on one member cell: text stays as it is, a missing cell
   * becomes `"nan"`, and a number is rendered by `showNumber` (Python's `str`
   * of a float, which this model takes as given).
   */
  function MemberText(showNumber: real -> string, c: Cell): string {
    match c
    case Blank => "nan"
    case Num(x) => showNumber(x)
    case Text(s) => s
  }

  /** `fillna(1)` on the completed count. */
  function CompletedOrOne(c: Option<real>): real {
    if c.Some? then c.value else 1.0
  }

  /** `np.where(ontime >= 0, ontime / 100.0, np.nan)`: a NaN fails the comparison. */
  function OntimeFlag(ontime: Option<real>): Option<real> {
    if ontime.Some? && ontime.value >= 0.0 then Some(ontime.value / 100.0) else None
  }

  /** `dt.to_period('M').dt.to_timestamp()`: NaT stays NaT. */
  function MonthOf(date: Option<Date>): Option<Date> {
    if date.Some? then Some(MonthStart(date.value)) else None
  }

  /** The record of row `i` once every column is prepared. */
  function MakeRecord(showNumber: real -> string, member: Cell, date: Option<Date>, task: Cell,
                      quality: Option<real>, revision: Option<real>, completed: Option<real>,
                      ontime: Option<real>, efficiency: Option<real>, manhours: Option<real>): Record
  {
    Record(MemberText(showNumber, member), date, task, quality, revision, CompletedOrOne(completed),
           ontime, efficiency, manhours, MonthOf(date), OntimeFlag(ontime))
  }

  /**
   * Lines 97-123: every mapped column fetched with `get_series` and prepared,
   * then zipped row by row with the parsed dates.
   */
  function BuildRecords(t: Table, m: Mapping, dates: seq<Option<Date>>, showNumber: real -> string): (r: seq<Record>)
    requires t.WellFormed() && |dates| == t.height
    ensures |r| == t.height
    ensures forall i :: 0 <= i < |r| ==>
              r[i] == MakeRecord(showNumber, GetSeries(t, m.member)[i], dates[i], GetSeries(t, m.task)[i],
                                 ParsePercent(GetSeries(t, m.quality))[i], ParsePercent(GetSeries(t, m.revision))[i],
                                 ToNumericColumn(GetSeries(t, m.completed))[i], ParsePercent(GetSeries(t, m.ontime))[i],
                                 ParsePercent(GetSeries(t, m.efficiency))[i], ToNumericColumn(GetSeries(t, m.manhours))[i])
  {
    var member := GetSeries(t, m.member);
    var task := GetSeries(t, m.task);
    var quality := ParsePercent(GetSeries(t, m.quality));
    var revision := ParsePercent(GetSeries(t, m.revision));
    var completed := ToNumericColumn(GetSeries(t, m.completed));
    var ontime := ParsePercent(GetSeries(t, m.ontime));
    var efficiency := ParsePercent(GetSeries(t, m.efficiency));
    var manhours := ToNumericColumn(GetSeries(t, m.manhours));
    seq(t.height, i requires 0 <= i < t.height =>
      MakeRecord(showNumber, member[i], dates[i], task[i], quality[i], revision[i], completed[i],
                 ontime[i], efficiency[i], manhours[i]))
  }

  /**
   * The derived columns of row `i`: its date is the parsed date, its month is
   * present exactly when the date is and is the first day of that month, and a
   * completed count that does not coerce counts as one task.
   */
  lemma DerivedColumns(t: Table, m: Mapping, dates: seq<Option<Date>>, showNumber: real -> string, i: nat)
    requires t.WellFormed() && |dates| == t.height
    requires i < t.height
    ensures var r := BuildRecords(t, m, dates, showNumber)[i];
            && r.date == dates[i]
            && (r.month.Some? <==> r.date.Some?)
            && (r.month.Some? ==> r.month.value == Date(r.date.value.year, r.date.value.month, 1))
            && (ToNumericColumn(GetSeries(t, m.completed))[i].None? ==> r.completed == 1.0)
            && (ToNumericColumn(GetSeries(t, m.completed))[i].Some? ==>
                  r.completed == ToNumericColumn(GetSeries(t, m.completed))[i].value)
            && r.ontimeFlag == OntimeFlag(r.ontime)
  {
  }

  /** The on-time flag is the fraction `ontime / 100` for a non-negative value and missing otherwise. */
  lemma OntimeFlagCases(ontime: Option<real>)
    ensures OntimeFlag(ontime).Some? <==> ontime.Some? && ontime.value >= 0.0
    ensures OntimeFlag(ontime).Some? ==> OntimeFlag(ontime).value * 100.0 == ontime.value
    ensures ontime.Some? && 0.0 <= ontime.value <= 100.0 ==> 0.0 <= OntimeFlag(ontime).value <= 1.0
  {
  }

  /**
   * No row is lost and the member is never missing: with no member column
   * mapped, every record's member is the text `"nan"`.
   */
  lemma UnmappedMemberIsNan(t: Table, m: Mapping, dates: seq<Option<Date>>, showNumber: real -> string, i: nat)
    requires t.WellFormed() && |dates| == t.height
    requires !IsMapped(t, m.member)
    requires i < t.height
    ensures |BuildRecords(t, m, dates, showNumber)| == t.height
    ensures BuildRecords(t, m, dates, showNumber)[i].member == "nan"
  {
  }

  /** With no task column mapped every record's task is missing. */
  lemma UnmappedTaskIsBlank(t: Table, m: Mapping, dates: seq<Option<Date>>, showNumber: real -> string, i: nat)
    requires t.WellFormed() && |dates| == t.height
    requires !IsMapped(t, m.task)
    requires i < t.height
    ensures BuildRecords(t, m, dates, showNumber)[i].task == Blank
  {
  }

  /** An unmapped percentage column gives missing values, never zeros. */
  lemma UnmappedQualityIsMissing(t: Table, m: Mapping, dates: seq<Option<Date>>, showNumber: real -> string, i: nat)
    requires t.WellFormed() && |dates| == t.height
    requires !IsMapped(t, m.quality)
    requires i < t.height
    ensures BuildRecords(t, m, dates, showNumber)[i].quality.None?
  {
    var col := GetSeries(t, m.quality);
    assert !IsTextColumn(col);
    NothingPresentUnchanged(col);
  }
}
