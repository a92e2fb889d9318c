/**
 * The worked example of the team table: in one month member A has one
 * record with quality 90 and member B three with 50, 60 and 40. The team
 * average is the mean of the member averages 90 and 50, i.e. 70, whereas
 * the mean over the four records would be 60.
 */
module Scenarios {
  import opened Cells
  import opened Stats
  import opened Grouping
  import opened Records
  import opened Keys
  import opened Aggregate

  /** A record dated 5 March 2024 whose only measured column is quality. */
  function QualityRecord(member: string, q: real): Record {
    Record(member, Some(Date(2024, 3, 5)), Blank, Some(q), None, 1.0, None, None, None, Some(Date(2024, 3, 1)), None)
  }

  /** The sheet has two member-month keys, A before B. */
  lemma ExampleKeys(records: seq<Record>)
    requires records == [QualityRecord("A", 90.0), QualityRecord("B", 50.0), QualityRecord("B", 60.0), QualityRecord("B", 40.0)]
    ensures KeysOf(MemberMonthLt, MemberMonthKey, records) == [MemberMonth("A", Date(2024, 3, 1)), MemberMonth("B", Date(2024, 3, 1))]
  {
    var ka, kb := MemberMonth("A", Date(2024, 3, 1)), MemberMonth("B", Date(2024, 3, 1));
    assert !MemberMonthLt(kb, ka);
    assert records[..4][..3] == records[..3];
    assert records[..3][..2] == records[..2];
    assert records[..2][..1] == records[..1];
    assert records[..1][..0] == [];
    assert KeysOf(MemberMonthLt, MemberMonthKey, records[..1]) == [ka];
    assert MemberMonthKey(records[1]) == Some(kb);
    assert InsertKey(MemberMonthLt, kb, [ka]) == [ka, kb] by {
      assert [ka][1..] == [];
    }
    assert InsertKey(MemberMonthLt, kb, [ka, kb]) == [ka, kb] by {
      assert [ka, kb][1..] == [kb];
    }
    assert KeysOf(MemberMonthLt, MemberMonthKey, records[..2]) == [ka, kb];
    assert KeysOf(MemberMonthLt, MemberMonthKey, records[..3]) == [ka, kb];
    assert records[..4] == records;
  }

  /** The plain mean over the four records. */
  lemma ExampleRecordMean(records: seq<Record>)
    requires records == [QualityRecord("A", 90.0), QualityRecord("B", 50.0), QualityRecord("B", 60.0), QualityRecord("B", 40.0)]
    ensures Mean(MapSeq(Quality, records)) == Some(60.0)
  {
    var q := MapSeq(Quality, records);
    assert q == [Some(90.0), Some(50.0), Some(60.0), Some(40.0)];
    assert q[1..] == [Some(50.0), Some(60.0), Some(40.0)];
    assert q[1..][1..] == [Some(60.0), Some(40.0)];
    assert q[1..][1..][1..] == [Some(40.0)];
    assert Present(q[1..][1..][1..]) == [40.0];
    assert Present(q[1..][1..]) == [60.0, 40.0];
    assert Present(q[1..]) == [50.0, 60.0, 40.0];
    var p := [90.0, 50.0, 60.0, 40.0];
    assert Present(q) == p;
    assert Sum(p[1..][1..][1..]) == 40.0;
    assert Sum(p[1..][1..]) == 100.0;
    assert Sum(p[1..]) == 150.0;
  }

  /** A's group is its single record. */
  lemma ExampleSelectA(records: seq<Record>)
    requires records == [QualityRecord("A", 90.0), QualityRecord("B", 50.0), QualityRecord("B", 60.0), QualityRecord("B", 40.0)]
    ensures Select(MemberMonthKey, records, MemberMonth("A", Date(2024, 3, 1))) == records[..1]
  {
    var p := HasKey(MemberMonthKey, MemberMonth("A", Date(2024, 3, 1)));
    assert records[4..] == [];
    forall k | 1 <= k < 4 ensures !p(records[k]) {
      assert MemberMonthKey(records[k]) == Some(MemberMonth("B", Date(2024, 3, 1)));
    }
    assert Where(p, records[4..]) == [];
    assert records[3..][0] == records[3] && records[3..][1..] == records[4..];
    assert Where(p, records[3..]) == [];
    assert records[2..][0] == records[2] && records[2..][1..] == records[3..];
    assert Where(p, records[2..]) == [];
    assert records[1..][0] == records[1] && records[1..][1..] == records[2..];
    assert Where(p, records[1..]) == [];
  }

  /** B's group is its three records. */
  lemma ExampleSelectB(records: seq<Record>)
    requires records == [QualityRecord("A", 90.0), QualityRecord("B", 50.0), QualityRecord("B", 60.0), QualityRecord("B", 40.0)]
    ensures Select(MemberMonthKey, records, MemberMonth("B", Date(2024, 3, 1))) == records[1..]
  {
    var p := HasKey(MemberMonthKey, MemberMonth("B", Date(2024, 3, 1)));
    assert records[4..] == [];
    forall k | 1 <= k < 4 ensures p(records[k]) {
      assert MemberMonthKey(records[k]) == Some(MemberMonth("B", Date(2024, 3, 1)));
    }
    assert Where(p, records[4..]) == [];
    assert records[3..][0] == records[3] && records[3..][1..] == records[4..];
    assert Where(p, records[3..]) == records[3..];
    assert records[2..][0] == records[2] && records[2..][1..] == records[3..];
    assert Where(p, records[2..]) == records[2..];
    assert records[1..][0] == records[1] && records[1..][1..] == records[2..];
    assert Where(p, records[1..]) == records[1..];
  }

  /** `per_member_month` has one row for A and one for B. */
  lemma ExampleMemberMonths(records: seq<Record>)
    requires records == [QualityRecord("A", 90.0), QualityRecord("B", 50.0), QualityRecord("B", 60.0), QualityRecord("B", 40.0)]
    ensures PerMemberMonth(records) == [(MemberMonth("A", Date(2024, 3, 1)), Summarize(records[..1])),
                                        (MemberMonth("B", Date(2024, 3, 1)), Summarize(records[1..]))]
  {
    ExampleKeys(records);
    ExampleSelectA(records);
    ExampleSelectB(records);
    GroupByTwo(MemberMonthLt, MemberMonthKey, Summarize, records, MemberMonth("A", Date(2024, 3, 1)),
               MemberMonth("B", Date(2024, 3, 1)), records[..1], records[1..]);
  }

  /** A averages 90 and B averages 50. */
  lemma ExampleMemberAverages(records: seq<Record>)
    requires records == [QualityRecord("A", 90.0), QualityRecord("B", 50.0), QualityRecord("B", 60.0), QualityRecord("B", 40.0)]
    ensures Summarize(records[..1]).avgQuality == Some(90.0)
    ensures Summarize(records[1..]).avgQuality == Some(50.0)
  {
    var q := MapSeq(Quality, records[1..]);
    assert q == [Some(50.0), Some(60.0), Some(40.0)];
    assert q[1..] == [Some(60.0), Some(40.0)];
    assert q[1..][1..] == [Some(40.0)];
    assert Present(q[1..][1..]) == [40.0];
    assert Present(q[1..]) == [60.0, 40.0];
    var p := [50.0, 60.0, 40.0];
    assert Present(q) == p;
    assert Sum(p[1..][1..]) == 40.0;
    assert Sum(p[1..]) == 100.0;
    assert MapSeq(Quality, records[..1]) == [Some(90.0)];
  }

  /** Two member rows in the same month make one team row averaging them. */
  lemma ExampleTeam(pmm: seq<(MemberMonth, Summary)>)
    requires |pmm| == 2
    requires pmm[0].0 == MemberMonth("A", Date(2024, 3, 1)) && pmm[0].1.avgQuality == Some(90.0)
    requires pmm[1].0 == MemberMonth("B", Date(2024, 3, 1)) && pmm[1].1.avgQuality == Some(50.0)
    ensures var team := TeamMonth(pmm);
            |team| == 1 && team[0].1.avgQuality == Some(70.0)
  {
    var march := Date(2024, 3, 1);
    assert KeysOf(DateLt, TeamKey, pmm) == [march] by {
      assert pmm[..1][..0] == [];
      assert KeysOf(DateLt, TeamKey, pmm[..1]) == [march];
      assert pmm[..2][..1] == pmm[..1];
      assert pmm[..2] == pmm;
      assert InsertKey(DateLt, march, [march]) == [march];
    }
    assert Select(TeamKey, pmm, march) == pmm by {
      assert pmm[2..] == [];
      assert Where(HasKey(TeamKey, march), pmm[1..]) == pmm[1..];
    }
    var q := MapSeq(AvgQuality, pmm);
    assert q == [Some(90.0), Some(50.0)];
    assert q[1..] == [Some(50.0)];
    assert Present(q[1..]) == [50.0];
    var p := [90.0, 50.0];
    assert Present(q) == p;
    assert Sum(p[1..]) == 50.0;
    assert Mean(q) == Some(70.0);
    assert TeamSummarize(pmm).avgQuality == Some(70.0);
    assert TeamMonth(pmm) == [(march, TeamSummarize(pmm))];
  }

  /** The team average is 70, not the record mean of 60. */
  lemma TeamAverageWeighsMembersEqually(records: seq<Record>)
    requires records == [QualityRecord("A", 90.0), QualityRecord("B", 50.0), QualityRecord("B", 60.0), QualityRecord("B", 40.0)]
    ensures Mean(MapSeq(Quality, records)) == Some(60.0)
    ensures var team := TeamMonth(PerMemberMonth(records));
            |team| == 1 && team[0].1.avgQuality == Some(70.0)
  {
    ExampleRecordMean(records);
    ExampleMemberMonths(records);
    ExampleMemberAverages(records);
    ExampleTeam(PerMemberMonth(records));
  }
}
