/**
 * One run of the KPI dashboard on an uploaded sheet: the date stage, which
 * can stop the run, then the records, the three summaries, the member list
 * and the default month range the charts start from.
 */
module Pipeline {
  import opened Cells
  import opened Frame
  import opened Records
  import opened Keys
  import opened Aggregate
  import opened Filters

  /** What the model takes from outside: the date parser and Python's `str` of a number. */
  datatype Environment = Environment(parsers: DateParsers, showNumber: real -> string)

  /** The tables the dashboard shows. `perMemberTask` is absent when no task column is mapped. */
  datatype Dashboard = Dashboard(
    records: seq<Record>,
    perMemberMonth: seq<(MemberMonth, Summary)>,
    teamMonth: seq<(Date, Summary)>,
    perMemberTask: Option<seq<(MemberTask, TaskSummary)>>,
    members: seq<string>,
    defaultRange: Option<(Date, Date)>)

  /**
   * The run: it stops exactly when the date stage does, and otherwise keeps
   * one record per sheet row, builds the per-member-task table exactly when a
   * usable task column is mapped, and always has a default month range, since
   * some record is dated.
   */
  function Run(t: Table, m: Mapping, env: Environment): (r: Result<Dashboard, Error>)
    requires t.WellFormed()
    ensures r.Err? <==> ParseDates(t, m, env.parsers).Err?
    ensures r.Err? ==> r.error == ParseDates(t, m, env.parsers).error
    ensures r.Ok? ==> && |r.value.records| == t.height
                      && r.value.records == BuildRecords(t, m, ParseDates(t, m, env.parsers).value, env.showNumber)
                      && (r.value.perMemberTask.Some? <==> IsMapped(t, m.task))
                      && r.value.defaultRange.Some?
    ensures r.Ok? ==> r.value == BuildDashboard(t, m, r.value.records)
  {
    match ParseDates(t, m, env.parsers)
    case Err(e) => Err(e)
    case Ok(dates) =>
      DatedSheetHasRange(t, m, dates, env.showNumber);
      Ok(BuildDashboard(t, m, BuildRecords(t, m, dates, env.showNumber)))
  }

  /**
   * Lines 126-169 on the records: `team_month` and the member list are built
   * from `per_member_month`, the task table only when a task column is mapped.
   */
  function BuildDashboard(t: Table, m: Mapping, records: seq<Record>): (d: Dashboard)
    ensures d.records == records
    ensures d.perMemberMonth == PerMemberMonth(records)
    ensures d.teamMonth == TeamMonth(d.perMemberMonth)
    ensures d.perMemberTask.Some? <==> IsMapped(t, m.task)
    ensures d.perMemberTask.Some? ==> d.perMemberTask.value == PerMemberTask(records)
    ensures d.members == MemberOptions(d.perMemberMonth)
    ensures d.defaultRange == DefaultRange(records)
  {
    var pmm := PerMemberMonth(records);
    Dashboard(records, pmm, TeamMonth(pmm),
              if IsMapped(t, m.task) then Some(PerMemberTask(records)) else None,
              MemberOptions(pmm), DefaultRange(records))
  }

  /** A dated row gives a record with a month, so the default range exists. */
  lemma DatedSheetHasRange(t: Table, m: Mapping, dates: seq<Option<Date>>, showNumber: real -> string)
    requires t.WellFormed() && |dates| == t.height
    requires exists i :: 0 <= i < |dates| && dates[i].Some?
    ensures DefaultRange(BuildRecords(t, m, dates, showNumber)).Some?
  {
    var records := BuildRecords(t, m, dates, showNumber);
    var i :| 0 <= i < |dates| && dates[i].Some?;
    assert records[i].month.Some?;
  }

  /**
   * The two ways a run stops: the date column is not named or not in the
   * sheet, or it is there and not one of its cells parses as a date.
   */
  lemma RunStops(t: Table, m: Mapping, env: Environment)
    requires t.WellFormed()
    ensures Run(t, m, env) == Err(DateColumnNotFound(m.date)) <==> m.date.None? || m.date.value !in t.columns
    ensures Run(t, m, env) == Err(NoParsableDates) <==>
              m.date.Some? && m.date.value in t.columns
              && AllMissing(ChooseDates(env.parsers, m.dateFormatHint, t.columns[m.date.value]))
  {
  }

  /** On a completed run, the default range with no member selected shows both summaries whole. */
  lemma RunDefaultViewIsComplete(t: Table, m: Mapping, env: Environment)
    requires t.WellFormed()
    requires Run(t, m, env).Ok?
    ensures var d := Run(t, m, env).value;
            var (start, end) := d.defaultRange.value;
            && FilterMemberMonth(d.perMemberMonth, start, end, []) == d.perMemberMonth
            && FilterTeamMonth(d.teamMonth, start, end) == d.teamMonth
  {
    var d := Run(t, m, env).value;
    DefaultRangeKeepsMemberMonths(d.records);
    DefaultRangeKeepsTeamMonths(d.records);
  }

  /**
   * The opening view of a completed run: the default range with the default
   * selection shows every month of exactly the first three members in name
   * order, and the whole team table.
   */
  lemma RunOpeningView(t: Table, m: Mapping, env: Environment)
    requires t.WellFormed()
    requires Run(t, m, env).Ok?
    ensures var d := Run(t, m, env).value;
            var (start, end) := d.defaultRange.value;
            var sel := DefaultSelection(d.members);
            && (forall p :: p in FilterMemberMonth(d.perMemberMonth, start, end, sel) <==>
                              p in d.perMemberMonth && p.0.member in sel)
            && FilterTeamMonth(d.teamMonth, start, end) == d.teamMonth
  {
    var d := Run(t, m, env).value;
    DefaultViewShowsFirstMembers(d.records);
    DefaultRangeKeepsTeamMonths(d.records);
  }
}
