/**
 * The chart controls of app.py: the member list offered for selection, the
 * default month range, and the filters applied to `per_member_month` (month
 * range, then the selected members unless none are selected) and to
 * `team_month` (month range only).
 */
module Filters {
  import opened Cells
  import opened Grouping
  import opened Records
  import opened Keys
  import opened Aggregate

  function RowMember(p: (MemberMonth, Summary)): Option<string> {
    Some(p.0.member)
  }

  /** `sorted(per_member_month['member'].dropna().unique())`: each member once, in string order. */
  function MemberOptions(pmm: seq<(MemberMonth, Summary)>): (ms: seq<string>)
    ensures forall i :: 0 <= i < |pmm| ==> pmm[i].0.member in ms
    ensures forall m :: m in ms ==> exists i :: 0 <= i < |pmm| && pmm[i].0.member == m
  {
    KeysOf(StrLt, RowMember, pmm)
  }

  /** The member list is in ascending order with no member twice. */
  lemma MemberOptionsSorted(pmm: seq<(MemberMonth, Summary)>)
    ensures var ms := MemberOptions(pmm);
            forall i, j :: 0 <= i < j < |ms| ==> StrLt(ms[i], ms[j])
  {
    StrOrder();
    KeysIncreasing(StrLt, RowMember, pmm);
  }

  /** `month >= start` and `month <= end`. */
  predicate InRange(month: Date, start: Date, end: Date) {
    DateLe(start, month) && DateLe(month, end)
  }

  /** The row mask of lines 165 and 168-169. */
  function MemberMonthMask(start: Date, end: Date, selected: seq<string>): ((MemberMonth, Summary)) -> bool {
    (p: (MemberMonth, Summary)) => InRange(p.0.month, start, end) && (selected == [] || p.0.member in selected)
  }

  /** The row mask of line 166. */
  function TeamMonthMask(start: Date, end: Date): ((Date, Summary)) -> bool {
    (p: (Date, Summary)) => InRange(p.0, start, end)
  }

  /** Lines 165 and 168-169: the month range, then the member selection when it is not empty. */
  function FilterMemberMonth(pmm: seq<(MemberMonth, Summary)>, start: Date, end: Date, selected: seq<string>)
    : (r: seq<(MemberMonth, Summary)>)
    ensures |r| <= |pmm|
    ensures forall p :: p in r <==> p in pmm && InRange(p.0.month, start, end) && (selected == [] || p.0.member in selected)
  {
    Where(MemberMonthMask(start, end, selected), pmm)
  }

  /** Line 166: the team table is filtered by the month range only. */
  function FilterTeamMonth(team: seq<(Date, Summary)>, start: Date, end: Date): (r: seq<(Date, Summary)>)
    ensures |r| <= |team|
    ensures forall p :: p in r <==> p in team && InRange(p.0, start, end)
  {
    Where(TeamMonthMask(start, end), team)
  }

  /** The member-month filter keeps the table's order: by member, then month. */
  lemma FilterMemberMonthSorted(records: seq<Record>, start: Date, end: Date, selected: seq<string>)
    ensures var r := FilterMemberMonth(PerMemberMonth(records), start, end, selected);
            forall i, j :: 0 <= i < j < |r| ==> MemberMonthLt(r[i].0, r[j].0)
  {
    var pmm := PerMemberMonth(records);
    PerMemberMonthSorted(records);
    assert IncreasingBy(MemberMonthLt, RowKey, pmm);
    WhereIncreasing(MemberMonthMask(start, end, selected), MemberMonthLt, RowKey, pmm);
    var r := FilterMemberMonth(pmm, start, end, selected);
    forall i, j | 0 <= i < j < |r| ensures MemberMonthLt(r[i].0, r[j].0) {
      assert RowKey(r[i]) == r[i].0 && RowKey(r[j]) == r[j].0;
    }
  }

  /** The team filter keeps the table's order: by month. */
  lemma FilterTeamMonthSorted(records: seq<Record>, start: Date, end: Date)
    ensures var r := FilterTeamMonth(TeamMonth(PerMemberMonth(records)), start, end);
            forall i, j :: 0 <= i < j < |r| ==> DateLt(r[i].0, r[j].0)
  {
    var team := TeamMonth(PerMemberMonth(records));
    TeamMonthSorted(records);
    assert IncreasingBy(DateLt, RowKey, team);
    WhereIncreasing(TeamMonthMask(start, end), DateLt, RowKey, team);
    var r := FilterTeamMonth(team, start, end);
    forall i, j | 0 <= i < j < |r| ensures DateLt(r[i].0, r[j].0) {
      assert RowKey(r[i]) == r[i].0 && RowKey(r[j]) == r[j].0;
    }
  }

  /** The member selection the sidebar starts with, `members[:3]`. */
  function DefaultSelection(members: seq<string>): (sel: seq<string>)
    ensures |sel| == if |members| < 3 then |members| else 3
    ensures sel == members[..|sel|]
  {
    if |members| < 3 then members else members[..3]
  }

  /**
   * The opening member chart: with the default range and the default
   * selection it shows every month of exactly the selected members, the
   * first three in name order.
   */
  lemma DefaultViewShowsFirstMembers(records: seq<Record>)
    requires DefaultRange(records).Some?
    ensures var (start, end) := DefaultRange(records).value;
            var pmm := PerMemberMonth(records);
            var sel := DefaultSelection(MemberOptions(pmm));
            forall p :: p in FilterMemberMonth(pmm, start, end, sel) <==> p in pmm && p.0.member in sel
  {
    var (start, end) := DefaultRange(records).value;
    var pmm := PerMemberMonth(records);
    var sel := DefaultSelection(MemberOptions(pmm));
    MonthsInDefaultRange(records);
    forall p | p in pmm ensures InRange(p.0.month, start, end) && sel != [] {
      var j :| 0 <= j < |pmm| && pmm[j] == p;
      assert p.0.member in MemberOptions(pmm);
    }
  }

  /** The earlier of two dates. */
  function MinDate(a: Date, b: Date): Date {
    if DateLe(a, b) then a else b
  }

  function MaxDate(a: Date, b: Date): Date {
    if DateLe(a, b) then b else a
  }

  /**
   * The default of the range picker, `[work['month'].min(), work['month'].max()]`:
   * the earliest and latest month carried by a record, or none when no record
   * has a month.
   */
  function DefaultRange(records: seq<Record>): (r: Option<(Date, Date)>)
    ensures r.None? <==> forall i :: 0 <= i < |records| ==> records[i].month.None?
    ensures r.Some? ==> forall i :: 0 <= i < |records| && records[i].month.Some? ==>
                          DateLe(r.value.0, records[i].month.value) && DateLe(records[i].month.value, r.value.1)
    ensures r.Some? ==> (exists i :: 0 <= i < |records| && records[i].month == Some(r.value.0))
                        && (exists i :: 0 <= i < |records| && records[i].month == Some(r.value.1))
  {
    if records == [] then None
    else
      var rest := DefaultRange(records[1..]);
      assert forall i :: 1 <= i < |records| ==> records[i] == records[1..][i - 1];
      match (records[0].month, rest)
      case (None, _) => rest
      case (Some(m), None) => Some((m, m))
      case (Some(m), Some((lo, hi))) => Some((MinDate(m, lo), MaxDate(m, hi)))
  }

  /** Every member-month row's month lies in the default range. */
  lemma MonthsInDefaultRange(records: seq<Record>)
    requires DefaultRange(records).Some?
    ensures var (start, end) := DefaultRange(records).value;
            var pmm := PerMemberMonth(records);
            forall j :: 0 <= j < |pmm| ==> InRange(pmm[j].0.month, start, end)
  {
    var (start, end) := DefaultRange(records).value;
    var pmm := PerMemberMonth(records);
    PerMemberMonthFromRecords(records);
    forall j | 0 <= j < |pmm| ensures InRange(pmm[j].0.month, start, end) {
      var i :| 0 <= i < |records| && records[i].month == Some(pmm[j].0.month) && records[i].member == pmm[j].0.member;
    }
  }

  /** With the default range and no member selected, the member-month table is shown whole. */
  lemma DefaultRangeKeepsMemberMonths(records: seq<Record>)
    requires DefaultRange(records).Some?
    ensures var (start, end) := DefaultRange(records).value;
            FilterMemberMonth(PerMemberMonth(records), start, end, []) == PerMemberMonth(records)
  {
    var (start, end) := DefaultRange(records).value;
    MonthsInDefaultRange(records);
    WhereAll(MemberMonthMask(start, end, []), PerMemberMonth(records));
  }

  /** With the default range the team table is shown whole. */
  lemma DefaultRangeKeepsTeamMonths(records: seq<Record>)
    requires DefaultRange(records).Some?
    ensures var (start, end) := DefaultRange(records).value;
            FilterTeamMonth(TeamMonth(PerMemberMonth(records)), start, end) == TeamMonth(PerMemberMonth(records))
  {
    var (start, end) := DefaultRange(records).value;
    var pmm := PerMemberMonth(records);
    var team := TeamMonth(pmm);
    MonthsInDefaultRange(records);
    forall j | 0 <= j < |team| ensures InRange(team[j].0, start, end) {
      assert exists i :: 0 <= i < |pmm| && TeamKey(pmm[i]) == Some(team[j].0) by {
        GroupByKeys(DateLt, TeamKey, TeamSummarize, pmm);
      }
      var i :| 0 <= i < |pmm| && TeamKey(pmm[i]) == Some(team[j].0);
    }
    WhereAll(TeamMonthMask(start, end), team);
  }
}
