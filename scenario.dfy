/** A two-college run of the summary: college 1 has five attendance
    records and two notifications, college 2 has no activity at all. */
module Scenario {
  import opened Frames
  import opened Summary

  function TeachRows(): Table {
    Table(["total_attendance"], [Row(1, "A", [Num(5)]), Row(2, "B", [Num(0)])])
  }

  function EngageRows(): Table {
    Table(["total_notify_count"], [Row(1, "A", [Num(2)])])
  }

  function AnalyseRows(): Table {
    Table(["swoc_count"], [Row(1, "A", [Num(0)]), Row(2, "B", [Num(0)])])
  }

  function SixFrames(): seq<Table> {
    [TeachRows(), EngageRows(), Table(["total_objective_count"], []), Table(["total_faculty_feedback"], []),
     AnalyseRows(), Table(["total_remediate_count"], [])]
  }

  /** What each category frame gives each college: its row's count
      column, or 0 when the frame has no row for it. */
  lemma CategoryValues()
    ensures var ts := SixFrames();
      && [CategoryOf(ts[0], 1), CategoryOf(ts[1], 1), CategoryOf(ts[2], 1),
          CategoryOf(ts[3], 1), CategoryOf(ts[4], 1), CategoryOf(ts[5], 1)] == [5, 2, 0, 0, 0, 0]
      && [CategoryOf(ts[0], 2), CategoryOf(ts[1], 2), CategoryOf(ts[2], 2),
          CategoryOf(ts[3], 2), CategoryOf(ts[4], 2), CategoryOf(ts[5], 2)] == [0, 0, 0, 0, 0, 0]
  {
    var ts := SixFrames();
    assert RowSum([Num(5)]) == 5 && RowSum([Num(2)]) == 2 && RowSum([Num(0)]) == 0;
  }

  lemma ExpectedValues()
    ensures var ts := SixFrames();
      ExpectedTallies(ts, ts[0].rows) == [Tally(1, "A", [5, 2, 0, 0, 0, 0], 7), Tally(2, "B", [0, 0, 0, 0, 0, 0], 0)]
  {
    var ts := SixFrames();
    CategoryValues();
    var e := ExpectedTallies(ts, ts[0].rows);
    var c1: seq<nat> := [5, 2, 0, 0, 0, 0];
    var c2: seq<nat> := [0, 0, 0, 0, 0, 0];
    assert e[0].cats == c1;
    assert e[1].cats == c2;
    SumSix(c1);
    SumSix(c2);
  }

  lemma SumSix(s: seq<nat>)
    requires |s| == 6
    ensures SumNats(s) == s[0] + s[1] + s[2] + s[3] + s[4] + s[5]
  {
    assert s[..5][..4] == s[..4] && s[..4][..3] == s[..3] && s[..3][..2] == s[..2];
    assert s[..2][..1] == s[..1] && s[..1][..0] == [];
    assert SumNats(s[..1]) == s[0];
    assert SumNats(s[..2]) == s[0] + s[1];
    assert SumNats(s[..3]) == s[0] + s[1] + s[2];
    assert SumNats(s[..4]) == s[0] + s[1] + s[2] + s[3];
    assert SumNats(s[..5]) == s[0] + s[1] + s[2] + s[3] + s[4];
  }

  lemma SortValues(a: Tally, b: Tally)
    requires a.total > b.total
    ensures SortByTotal([a, b]) == [a, b]
  {
    assert [a, b][1..] == [b];
    assert SortByTotal([b]) == [b];
  }

  lemma NumberedValues(a: Tally, b: Tally)
    requires a == Tally(1, "A", [5, 2, 0, 0, 0, 0], 7) && b == Tally(2, "B", [0, 0, 0, 0, 0, 0], 0)
    ensures Numbered([a, b]) == [
      SummaryRow(Int(1), Int(1), "A", [5, 2, 0, 0, 0, 0, 7]),
      SummaryRow(Int(2), Int(2), "B", [0, 0, 0, 0, 0, 0, 0])]
  {
    assert Nums(a) == [5, 2, 0, 0, 0, 0, 7] && Nums(b) == [0, 0, 0, 0, 0, 0, 0];
  }

  lemma TotalValues(rows: seq<SummaryRow>)
    requires rows == [
      SummaryRow(Int(1), Int(1), "A", [5, 2, 0, 0, 0, 0, 7]),
      SummaryRow(Int(2), Int(2), "B", [0, 0, 0, 0, 0, 0, 0])]
    ensures TotalRow(rows) == SummaryRow(Text(TotalSerial), Text(TotalId), TotalName, [5, 2, 0, 0, 0, 0, 7])
  {
    assert rows[..1] == [rows[0]] && rows[..1][..0] == [];
    forall k | 0 <= k < |NumericColumns| ensures ColumnSum(rows, k) == At(rows[0].nums, k) + At(rows[1].nums, k) {
      assert ColumnSum(rows[..1], k) == At(rows[0].nums, k);
    }
  }

  lemma FramesUnique()
    ensures AllUnique(SixFrames())
  {
    var ts := SixFrames();
    assert UniqueIds(ts[0]) && UniqueIds(ts[4]);
  }

  /** The numbered rows of the two tallies, then their total row. */
  lemma SheetTwo(a: Tally, b: Tally)
    requires a == Tally(1, "A", [5, 2, 0, 0, 0, 0], 7) && b == Tally(2, "B", [0, 0, 0, 0, 0, 0], 0)
    ensures Sheet(SortByTotal([a, b])) == [
      SummaryRow(Int(1), Int(1), "A", [5, 2, 0, 0, 0, 0, 7]),
      SummaryRow(Int(2), Int(2), "B", [0, 0, 0, 0, 0, 0, 0]),
      SummaryRow(Text(TotalSerial), Text(TotalId), TotalName, [5, 2, 0, 0, 0, 0, 7])]
  {
    SortValues(a, b);
    NumberedValues(a, b);
    TotalValues(Numbered([a, b]));
  }

  /** College 1 ranks first with total 7, college 2 second with total 0
      (zero-filled in every category it is missing from), and the total
      row holds 5 teach, 2 engage and 7 overall. */
  lemma TwoColleges()
    ensures SummaryOf(SixFrames()) == [
      SummaryRow(Int(1), Int(1), "A", [5, 2, 0, 0, 0, 0, 7]),
      SummaryRow(Int(2), Int(2), "B", [0, 0, 0, 0, 0, 0, 0]),
      SummaryRow(Text(TotalSerial), Text(TotalId), TotalName, [5, 2, 0, 0, 0, 0, 7])]
  {
    FramesUnique();
    SummaryOfExpected(SixFrames());
    ExpectedValues();
    SheetTwo(Tally(1, "A", [5, 2, 0, 0, 0, 0], 7), Tally(2, "B", [0, 0, 0, 0, 0, 0], 0));
  }
}
