/**
 * The three summaries of app.py: `per_member_month` (records grouped by
 * member and month), `team_month` (the member-month rows grouped again by
 * month) and `per_member_task` (records grouped by member and task). Means
 * skip missing values and are missing for a group with none; sums count a
 * missing value as 0.
 */
module Aggregate {
  import opened Cells
  import opened Stats
  import opened Grouping
  import opened Records
  import opened Keys

  /** One output row's aggregates, named as in the source's `agg` calls. */
  datatype Summary = Summary(
    avgQuality: Option<real>,
    avgRevision: Option<real>,
    totalCompleted: real,
    ontimePct: Option<real>,
    avgEfficiency: Option<real>,
    totalManhours: real)

  /** `per_member_task` carries, besides the aggregates, the number of dated rows in the group. */
  datatype TaskSummary = TaskSummary(summary: Summary, observations: nat)

  // Record columns, as functions the aggregations are written with.
  function Quality(r: Record): Option<real> { r.quality }
  function Revision(r: Record): Option<real> { r.revision }
  function Completed(r: Record): real { r.completed }
  function OntimeFlagOf(r: Record): Option<real> { r.ontimeFlag }
  function Efficiency(r: Record): Option<real> { r.efficiency }
  function Manhours(r: Record): Option<real> { r.manhours }
  function ManhoursOrZero(r: Record): real { OrZero(r.manhours) }
  function HasDate(r: Record): bool { r.date.Some? }
  function RecordMonth(r: Record): Option<Date> { r.month }

  /** The `agg` of lines 126-133 on one group of records. */
  function Summarize(g: seq<Record>): Summary {
    Summary(Mean(MapSeq(Quality, g)), Mean(MapSeq(Revision, g)), SumBy(Completed, g),
            Mean(MapSeq(OntimeFlagOf, g)), Mean(MapSeq(Efficiency, g)), Total(MapSeq(Manhours, g)))
  }

  /** The `groupby(['member', 'month'])` key; a record without a month has none and is dropped. */
  function MemberMonthKey(r: Record): Option<MemberMonth> {
    if r.month.Some? then Some(MemberMonth(r.member, r.month.value)) else None
  }

  /** `per_member_month`. */
  function PerMemberMonth(records: seq<Record>): seq<(MemberMonth, Summary)> {
    GroupBy(MemberMonthLt, MemberMonthKey, Summarize, records)
  }

  // Member-month columns, as functions `team_month` is written with.
  function AvgQuality(p: (MemberMonth, Summary)): Option<real> { p.1.avgQuality }
  function AvgRevision(p: (MemberMonth, Summary)): Option<real> { p.1.avgRevision }
  function TotalCompleted(p: (MemberMonth, Summary)): real { p.1.totalCompleted }
  function OntimePct(p: (MemberMonth, Summary)): Option<real> { p.1.ontimePct }
  function AvgEfficiency(p: (MemberMonth, Summary)): Option<real> { p.1.avgEfficiency }
  function TotalManhours(p: (MemberMonth, Summary)): real { p.1.totalManhours }
  function MonthOfKey(k: MemberMonth): Date { k.month }

  /** The `groupby('month')` key of a member-month row; every such row has a month. */
  function TeamKey(p: (MemberMonth, Summary)): Option<Date> {
    Some(p.0.month)
  }

  /** The `agg` of lines 136-143: means of the member means, sums of the member sums. */
  function TeamSummarize(ps: seq<(MemberMonth, Summary)>): Summary {
    Summary(Mean(MapSeq(AvgQuality, ps)), Mean(MapSeq(AvgRevision, ps)), SumBy(TotalCompleted, ps),
            Mean(MapSeq(OntimePct, ps)), Mean(MapSeq(AvgEfficiency, ps)), SumBy(TotalManhours, ps))
  }

  /** `team_month`, computed from `per_member_month`. */
  function TeamMonth(pmm: seq<(MemberMonth, Summary)>): seq<(Date, Summary)> {
    GroupBy(DateLt, TeamKey, TeamSummarize, pmm)
  }

  /** The `groupby(['member', 'task'])` key; a record whose task is missing is dropped, whatever its date. */
  function MemberTaskKey(r: Record): Option<MemberTask> {
    if r.task.Blank? then None else Some(MemberTask(r.member, r.task))
  }

  /** `('date', 'count')`: the rows of the group whose date is present. */
  function Observations(g: seq<Record>): nat {
    |Where(HasDate, g)|
  }

  function SummarizeTask(g: seq<Record>): TaskSummary {
    TaskSummary(Summarize(g), Observations(g))
  }

  /** `per_member_task`. */
  function PerMemberTask(records: seq<Record>): seq<(MemberTask, TaskSummary)> {
    GroupBy(MemberTaskLt, MemberTaskKey, SummarizeTask, records)
  }

  /**
   * One averaged column of a group's aggregates (`avgQuality`, `avgRevision`,
   * `ontimePct` or `avgEfficiency`, read from the record field it averages):
   * missing exactly when none of the group's values is present, and otherwise
   * between the least and the greatest of them.
   */
  lemma SummarizeMeaning(g: seq<Record>, col: Summary -> Option<real>, field: Record -> Option<real>, lo: real, hi: real)
    requires forall h :: col(Summarize(h)) == Mean(MapSeq(field, h))
    requires forall i :: 0 <= i < |g| && field(g[i]).Some? ==> lo <= field(g[i]).value <= hi
    ensures col(Summarize(g)).None? <==> forall i :: 0 <= i < |g| ==> field(g[i]).None?
    ensures col(Summarize(g)).Some? ==> lo <= col(Summarize(g)).value <= hi
  {
    var q := MapSeq(field, g);
    MeanMissing(q);
    if Mean(q).Some? {
      MeanWithin(q, lo, hi);
    }
  }

  /** The two totals of a group are sums over its records, a missing manhours value counting 0. */
  lemma SummarizeTotals(g: seq<Record>)
    ensures Summarize(g).totalCompleted == SumBy(Completed, g)
    ensures Summarize(g).totalManhours == SumBy(ManhoursOrZero, g)
  {
    TotalMap(Manhours, ManhoursOrZero, g);
  }

  /** The aggregates of a group depend only on which records form it, not on their order. */
  lemma SummarizeIgnoresOrder(g: seq<Record>, h: seq<Record>)
    requires multiset(g) == multiset(h)
    ensures Summarize(g) == Summarize(h)
    ensures SummarizeTask(g) == SummarizeTask(h)
  {
    ColumnIgnoresOrder(Quality, g, h);
    ColumnIgnoresOrder(Revision, g, h);
    ColumnIgnoresOrder(OntimeFlagOf, g, h);
    ColumnIgnoresOrder(Efficiency, g, h);
    ColumnIgnoresOrder(Manhours, g, h);
    SumByIgnoresOrder(Completed, g, h);
    assert Observations(g) == Observations(h) by {
      WhereIgnoresOrder(HasDate, g, h);
      assert |multiset(Where(HasDate, g))| == |multiset(Where(HasDate, h))|;
    }
  }

  /** Shuffling the sheet's rows leaves `per_member_month` exactly as it is. */
  lemma PerMemberMonthIgnoresOrder(a: seq<Record>, b: seq<Record>)
    requires multiset(a) == multiset(b)
    ensures PerMemberMonth(a) == PerMemberMonth(b)
  {
    MemberMonthOrder();
    forall g, h | multiset(g) == multiset(h) ensures Summarize(g) == Summarize(h) {
      SummarizeIgnoresOrder(g, h);
    }
    GroupByIgnoresOrder(MemberMonthLt, MemberMonthKey, Summarize, a, b);
  }

  /** Shuffling the sheet's rows leaves `team_month` exactly as it is. */
  lemma TeamMonthIgnoresOrder(a: seq<Record>, b: seq<Record>)
    requires multiset(a) == multiset(b)
    ensures TeamMonth(PerMemberMonth(a)) == TeamMonth(PerMemberMonth(b))
  {
    PerMemberMonthIgnoresOrder(a, b);
  }

  /** Shuffling the sheet's rows leaves `per_member_task` exactly as it is. */
  lemma PerMemberTaskIgnoresOrder(a: seq<Record>, b: seq<Record>)
    requires multiset(a) == multiset(b)
    ensures PerMemberTask(a) == PerMemberTask(b)
  {
    MemberTaskOrder();
    forall g, h | multiset(g) == multiset(h) ensures SummarizeTask(g) == SummarizeTask(h) {
      SummarizeIgnoresOrder(g, h);
    }
    GroupByIgnoresOrder(MemberTaskLt, MemberTaskKey, SummarizeTask, a, b);
  }

  /** `per_member_month` comes sorted by member, then month, with no key twice. */
  lemma PerMemberMonthSorted(records: seq<Record>)
    ensures var pmm := PerMemberMonth(records);
            forall i, j :: 0 <= i < j < |pmm| ==> MemberMonthLt(pmm[i].0, pmm[j].0)
  {
    MemberMonthOrder();
    GroupByOrdered(MemberMonthLt, MemberMonthKey, Summarize, records);
  }

  /** `per_member_month` has a row for the member and month of every dated record. */
  lemma PerMemberMonthCovers(records: seq<Record>)
    ensures var pmm := PerMemberMonth(records);
            forall i :: 0 <= i < |records| && records[i].month.Some? ==>
              exists j :: 0 <= j < |pmm| && pmm[j].0 == MemberMonth(records[i].member, records[i].month.value)
  {
    var pmm := PerMemberMonth(records);
    forall i | 0 <= i < |records| && records[i].month.Some?
      ensures exists j :: 0 <= j < |pmm| && pmm[j].0 == MemberMonth(records[i].member, records[i].month.value)
    {
      var k := MemberMonth(records[i].member, records[i].month.value);
      assert MemberMonthKey(records[i]) == Some(k);
      GroupByHasRow(MemberMonthLt, MemberMonthKey, Summarize, records, i);
      var j :| 0 <= j < |pmm| && pmm[j].0 == k;
    }
  }

  /** Every `per_member_month` row is the member and month of some record. */
  lemma PerMemberMonthFromRecords(records: seq<Record>)
    ensures var pmm := PerMemberMonth(records);
            forall j :: 0 <= j < |pmm| ==>
              exists i :: 0 <= i < |records| && records[i].month == Some(pmm[j].0.month)
                          && records[i].member == pmm[j].0.member
  {
    var pmm := PerMemberMonth(records);
    forall j | 0 <= j < |pmm|
      ensures exists i :: 0 <= i < |records| && records[i].month == Some(pmm[j].0.month)
                          && records[i].member == pmm[j].0.member
    {
      GroupByRowFrom(MemberMonthLt, MemberMonthKey, Summarize, records, j);
      var i :| 0 <= i < |records| && MemberMonthKey(records[i]) == Some(pmm[j].0);
      assert records[i].month == Some(pmm[j].0.month) && records[i].member == pmm[j].0.member;
    }
  }

  /** Each `per_member_month` row's aggregates are those of exactly the records with its member and month. */
  lemma PerMemberMonthSummaries(records: seq<Record>)
    ensures var pmm := PerMemberMonth(records);
            forall j :: 0 <= j < |pmm| ==> pmm[j].1 == Summarize(Select(MemberMonthKey, records, pmm[j].0))
  {
    GroupByRows(MemberMonthLt, MemberMonthKey, Summarize, records);
  }

  /** No member-month key is listed twice. */
  lemma MemberMonthKeysDistinct(records: seq<Record>)
    ensures Distinct(KeysOf(MemberMonthLt, MemberMonthKey, records))
  {
    MemberMonthOrder();
    KeysIncreasing(MemberMonthLt, MemberMonthKey, records);
  }

  /** Summing the member-month totals of one month: the two totals, stated once for any column. */
  lemma TeamTotalOfColumn(records: seq<Record>, m: Date, w: Summary -> real, pw: ((MemberMonth, Summary)) -> real,
                          v: Record -> real)
    requires forall p :: pw(p) == w(p.1)
    requires forall g :: w(Summarize(g)) == SumBy(v, g)
    ensures SumBy(pw, Select(TeamKey, PerMemberMonth(records), m)) == SumBy(v, Select(RecordMonth, records, m))
  {
    MemberMonthKeysDistinct(records);
    RegroupSum(MemberMonthLt, MemberMonthKey, Summarize, records, MonthOfKey, TeamKey, RecordMonth, w, pw, v, m);
  }

  /**
   * A team total is the sum over every dated record of that month, whoever
   * the member: summing the member totals loses and repeats nothing.
   */
  lemma TeamTotalsAreRecordSums(records: seq<Record>, j: nat)
    requires j < |TeamMonth(PerMemberMonth(records))|
    ensures var row := TeamMonth(PerMemberMonth(records))[j];
            var month := Select(RecordMonth, records, row.0);
            && row.1.totalCompleted == SumBy(Completed, month)
            && row.1.totalManhours == Total(MapSeq(Manhours, month))
  {
    var pmm := PerMemberMonth(records);
    var team := TeamMonth(pmm);
    var m := team[j].0;
    GroupByRows(DateLt, TeamKey, TeamSummarize, pmm);
    assert team[j].1 == TeamSummarize(Select(TeamKey, pmm, m));
    forall g ensures Summarize(g).totalManhours == SumBy(ManhoursOrZero, g) {
      TotalMap(Manhours, ManhoursOrZero, g);
    }
    TeamTotalOfColumn(records, m, (s: Summary) => s.totalManhours, TotalManhours, ManhoursOrZero);
    TotalMap(Manhours, ManhoursOrZero, Select(RecordMonth, records, m));
    TeamTotalOfColumn(records, m, (s: Summary) => s.totalCompleted, TotalCompleted, Completed);
  }

  /** `team_month` comes sorted by month, with no month twice. */
  lemma TeamMonthSorted(records: seq<Record>)
    ensures var team := TeamMonth(PerMemberMonth(records));
            forall i, j :: 0 <= i < j < |team| ==> DateLt(team[i].0, team[j].0)
  {
    DateOrder();
    GroupByOrdered(DateLt, TeamKey, TeamSummarize, PerMemberMonth(records));
  }

  /** `team_month` has a row for the month of every dated record. */
  lemma TeamMonthCovers(records: seq<Record>)
    ensures var team := TeamMonth(PerMemberMonth(records));
            forall i :: 0 <= i < |records| && records[i].month.Some? ==>
              exists j :: 0 <= j < |team| && team[j].0 == records[i].month.value
  {
    var pmm := PerMemberMonth(records);
    var team := TeamMonth(pmm);
    forall i | 0 <= i < |records| && records[i].month.Some?
      ensures exists j :: 0 <= j < |team| && team[j].0 == records[i].month.value
    {
      var k := MemberMonth(records[i].member, records[i].month.value);
      assert exists r :: 0 <= r < |pmm| && pmm[r].0 == k by {
        assert MemberMonthKey(records[i]) == Some(k);
        GroupByHasRow(MemberMonthLt, MemberMonthKey, Summarize, records, i);
      }
      var r :| 0 <= r < |pmm| && pmm[r].0 == k;
      assert TeamKey(pmm[r]) == Some(k.month);
      GroupByHasRow(DateLt, TeamKey, TeamSummarize, pmm, r);
    }
  }

  /** Every `team_month` row is the month of some dated record. */
  lemma TeamMonthFromRecords(records: seq<Record>)
    ensures var team := TeamMonth(PerMemberMonth(records));
            forall j :: 0 <= j < |team| ==> exists i :: 0 <= i < |records| && records[i].month == Some(team[j].0)
  {
    var pmm := PerMemberMonth(records);
    var team := TeamMonth(pmm);
    forall j | 0 <= j < |team| ensures exists i :: 0 <= i < |records| && records[i].month == Some(team[j].0) {
      GroupByRowFrom(DateLt, TeamKey, TeamSummarize, pmm, j);
      var r :| 0 <= r < |pmm| && TeamKey(pmm[r]) == Some(team[j].0);
      GroupByRowFrom(MemberMonthLt, MemberMonthKey, Summarize, records, r);
      var i :| 0 <= i < |records| && MemberMonthKey(records[i]) == Some(pmm[r].0);
      assert records[i].month == Some(team[j].0);
    }
  }

  /** The members of month `m` among the member-month keys. */
  function InMonth(m: Date): MemberMonth -> bool {
    (k: MemberMonth) => k.month == m
  }

  /** The member-month keys of month `m`, in key order. */
  function MonthMembers(records: seq<Record>, m: Date): seq<MemberMonth> {
    Where(InMonth(m), KeysOf(MemberMonthLt, MemberMonthKey, records))
  }

  // The averaged columns of a summary.
  function QualityOf(s: Summary): Option<real> { s.avgQuality }
  function RevisionOf(s: Summary): Option<real> { s.avgRevision }
  function OntimeOf(s: Summary): Option<real> { s.ontimePct }
  function EfficiencyOf(s: Summary): Option<real> { s.avgEfficiency }

  /** One averaged column of one member-month group of the records. */
  function MemberAverage(records: seq<Record>, col: Summary -> Option<real>): MemberMonth -> Option<real> {
    k => col(Summarize(Select(MemberMonthKey, records, k)))
  }

  /**
   * For an averaged column: a team month's value is the mean of the values
   * of the members active that month, each member counting once however
   * many records it has.
   */
  lemma TeamAverageOfColumn(records: seq<Record>, j: nat, col: Summary -> Option<real>,
                            pcol: ((MemberMonth, Summary)) -> Option<real>)
    requires j < |TeamMonth(PerMemberMonth(records))|
    requires forall p :: pcol(p) == col(p.1)
    requires forall ps :: col(TeamSummarize(ps)) == Mean(MapSeq(pcol, ps))
    ensures var row := TeamMonth(PerMemberMonth(records))[j];
            col(row.1) == Mean(MapSeq(MemberAverage(records, col), MonthMembers(records, row.0)))
  {
    var pmm := PerMemberMonth(records);
    var team := TeamMonth(pmm);
    var m := team[j].0;
    var members := MonthMembers(records, m);
    var rows := MapSeq(GroupRow(MemberMonthKey, Summarize, records), members);
    assert col(team[j].1) == Mean(MapSeq(pcol, Select(TeamKey, pmm, m))) by {
      GroupByRows(DateLt, TeamKey, TeamSummarize, pmm);
    }
    assert Select(TeamKey, pmm, m) == rows by {
      RegroupRows(MemberMonthLt, MemberMonthKey, Summarize, records, MonthOfKey, TeamKey, InMonth(m), m);
    }
    assert MapSeq(pcol, rows) == MapSeq(MemberAverage(records, col), members) by {
      forall i | 0 <= i < |members|
        ensures MapSeq(pcol, rows)[i] == MapSeq(MemberAverage(records, col), members)[i]
      {
        assert rows[i] == GroupRow(MemberMonthKey, Summarize, records)(members[i]);
      }
    }
  }

  /**
   * A team month's average quality, revision, on-time rate and efficiency
   * are each the mean over the members active that month of that member's
   * own average, not the mean over the month's records.
   */
  lemma TeamAverageOfMemberAverages(records: seq<Record>, j: nat)
    requires j < |TeamMonth(PerMemberMonth(records))|
    ensures var row := TeamMonth(PerMemberMonth(records))[j];
            var ks := MonthMembers(records, row.0);
            && row.1.avgQuality == Mean(MapSeq(MemberAverage(records, QualityOf), ks))
            && row.1.avgRevision == Mean(MapSeq(MemberAverage(records, RevisionOf), ks))
            && row.1.ontimePct == Mean(MapSeq(MemberAverage(records, OntimeOf), ks))
            && row.1.avgEfficiency == Mean(MapSeq(MemberAverage(records, EfficiencyOf), ks))
  {
    TeamAverageOfColumn(records, j, QualityOf, AvgQuality);
    TeamAverageOfColumn(records, j, RevisionOf, AvgRevision);
    TeamAverageOfColumn(records, j, OntimeOf, OntimePct);
    TeamAverageOfColumn(records, j, EfficiencyOf, AvgEfficiency);
  }

  /** `per_member_task` comes sorted by member, then task, with no key twice. */
  lemma PerMemberTaskSorted(records: seq<Record>)
    ensures var pmt := PerMemberTask(records);
            forall i, j :: 0 <= i < j < |pmt| ==> MemberTaskLt(pmt[i].0, pmt[j].0)
  {
    MemberTaskOrder();
    GroupByOrdered(MemberTaskLt, MemberTaskKey, SummarizeTask, records);
  }

  /** `per_member_task` has a row for the member and task of every record with a task, dated or not. */
  lemma PerMemberTaskCovers(records: seq<Record>)
    ensures var pmt := PerMemberTask(records);
            forall i :: 0 <= i < |records| && !records[i].task.Blank? ==>
              exists j :: 0 <= j < |pmt| && pmt[j].0 == MemberTask(records[i].member, records[i].task)
  {
    var pmt := PerMemberTask(records);
    forall i | 0 <= i < |records| && !records[i].task.Blank?
      ensures exists j :: 0 <= j < |pmt| && pmt[j].0 == MemberTask(records[i].member, records[i].task)
    {
      var k := MemberTask(records[i].member, records[i].task);
      assert MemberTaskKey(records[i]) == Some(k);
      GroupByHasRow(MemberTaskLt, MemberTaskKey, SummarizeTask, records, i);
      var j :| 0 <= j < |pmt| && pmt[j].0 == k;
    }
  }

  /** No `per_member_task` row has a missing task: those records are dropped. */
  lemma PerMemberTaskHasTasks(records: seq<Record>)
    ensures var pmt := PerMemberTask(records);
            forall j :: 0 <= j < |pmt| ==> !pmt[j].0.task.Blank?
  {
    var pmt := PerMemberTask(records);
    forall j | 0 <= j < |pmt| ensures !pmt[j].0.task.Blank? {
      GroupByRowFrom(MemberTaskLt, MemberTaskKey, SummarizeTask, records, j);
      var i :| 0 <= i < |records| && MemberTaskKey(records[i]) == Some(pmt[j].0);
    }
  }

  /** Every `per_member_task` row is the member and task of some record, whose task is present. */
  lemma PerMemberTaskFromRecords(records: seq<Record>)
    ensures var pmt := PerMemberTask(records);
            forall j :: 0 <= j < |pmt| ==>
              exists i :: 0 <= i < |records| && !records[i].task.Blank?
                          && MemberTask(records[i].member, records[i].task) == pmt[j].0
  {
    var pmt := PerMemberTask(records);
    forall j | 0 <= j < |pmt|
      ensures exists i :: 0 <= i < |records| && !records[i].task.Blank?
                          && MemberTask(records[i].member, records[i].task) == pmt[j].0
    {
      GroupByRowFrom(MemberTaskLt, MemberTaskKey, SummarizeTask, records, j);
      var i :| 0 <= i < |records| && MemberTaskKey(records[i]) == Some(pmt[j].0);
    }
  }

  /**
   * Each `per_member_task` row summarises exactly the records with its member
   * and task, and its observation count is the number of those that are dated.
   */
  lemma PerMemberTaskSummaries(records: seq<Record>)
    ensures var pmt := PerMemberTask(records);
            forall j :: 0 <= j < |pmt| ==>
              var g := Select(MemberTaskKey, records, pmt[j].0);
              && pmt[j].1.summary == Summarize(g)
              && pmt[j].1.observations == |Where(HasDate, g)|
              && pmt[j].1.observations <= |g|
  {
    GroupByRows(MemberTaskLt, MemberTaskKey, SummarizeTask, records);
  }
}
