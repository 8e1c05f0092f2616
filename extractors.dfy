/** The frame-level tails of the six category extractors of the TEATER
    report: what `get_engage_data`, `get_assess_data`, `get_track_data` and
    `get_analyse_data` do with the frames their queries return. The queries
    themselves are inputs here. */
module Extractors {
  import opened Frames

  /** Count-column labels the queries give their results. */
  const EngageColumns: seq<string> := ["total_attendance", "total_live_survey", "total_notify_count",
    "total_live_class_count", "total_projects_count", "total_arena_count", "total_go_code_count"]
  const AssessColumns: seq<string> := ["total_objective_count", "total_subjective_count", "total_coding_count"]
  const TrackColumns: seq<string> := ["total_faculty_feedback", "total_semester_feedback", "total_regular_feedback"]
  const SwocColumn := "swoc_count"

  /** The frames carry, one after the other, exactly the given labels. */
  predicate Labelled(ts: seq<Table>, labels: seq<string>) {
    |ts| == |labels| && forall k | 0 <= k < |ts| :: ts[k].cols == [labels[k]]
  }

  lemma {:induction false} LabelledCols(ts: seq<Table>, labels: seq<string>)
    requires Labelled(ts, labels)
    ensures AllCols(ts) == labels
  {
    if ts != [] {
      LabelledCols(ts[..|ts| - 1], labels[..|labels| - 1]);
      assert labels == labels[..|labels| - 1] + [labels[|labels| - 1]];
    }
  }

  /** Frames that each carry one of a set of distinct labels merge into a
      frame with exactly those labels. */
  lemma LabelledFold(ts: seq<Table>, labels: seq<string>)
    requires |ts| > 0
    ensures Labelled(ts, labels) && Distinct(labels) ==> FillNa(MergeFold(IdAndName, ts[0], ts[1..])).cols == labels
  {
    if Labelled(ts, labels) && Distinct(labels) {
      assert Labelled(ts[1..], labels[1..]);
      LabelledCols(ts[1..], labels[1..]);
      assert labels == [labels[0]] + labels[1..];
      FilledFoldShape(IdAndName, ts[0], ts[1..]);
    }
  }

  lemma TailFacts(ts: seq<Table>)
    requires |ts| > 0
    ensures AllRectangular(ts) ==> Rectangular(ts[0]) && AllRectangular(ts[1..])
    ensures AllUnique(ts) ==> AllUnique(ts[1..])
  {
  }

  /** Frames merged left to right on (college_id, college_name), then
      `fillna(0)`: the shared tail of the Engage, Assess and Track
      extractors. */
  function Merged(ts: seq<Table>): (r: Table)
    requires |ts| > 0
    ensures NoMissing(r)
    ensures |r.rows| >= |ts[0].rows|
    ensures AllRectangular(ts) ==> Rectangular(r)
    ensures AllUnique(ts) ==> SameKeys(r, ts[0])
  {
    FilledFoldShape(IdAndName, ts[0], ts[1..]);
    TailFacts(ts);
    FillNa(MergeFold(IdAndName, ts[0], ts[1..]))
  }

  /** Zero-fill of an extractor tail: column `c` of query frame `n` sits,
      in row `i`, at offset `|ts[0].cols| + Width(ts[1..n]) + c`; it holds
      the value of that frame's row with the same college_id and
      college_name, and 0 when the frame has no such row. */
  lemma MergedZeroFill(ts: seq<Table>, i: nat, n: nat, c: nat)
    requires |ts| > 0 && Rectangular(ts[0]) && AllRectangular(ts[1..]) && AllUnique(ts[1..])
    requires i < |ts[0].rows| && 0 < n < |ts| && c < |ts[n].cols|
    ensures var r := Merged(ts); var key := IdNameKey(ts[0].rows[i].id, ts[0].rows[i].name);
      var at := |ts[0].cols| + Width(ts[1..n]) + c;
      && i < |r.rows| && at < |r.rows[i].cells|
      && (forall j | 0 <= j < |ts[n].rows| && Matches(key, ts[n].rows[j]) ::
            r.rows[i].cells[at] == Fill(ts[n].rows[j].cells[c]))
      && ((forall j | 0 <= j < |ts[n].rows| :: !Matches(key, ts[n].rows[j])) ==> r.rows[i].cells[at] == Num(0))
  {
    var rest := ts[1..];
    assert rest[..n - 1] == ts[1..n];
    assert rest[n - 1] == ts[n];
    ZeroFilledFold(IdAndName, ts[0], rest, i, n - 1, c);
  }

  /** `get_engage_data` (lines 255-263): the seven engagement frames, in
      the order the source merges them (live questionnaires, live surveys,
      notifications, live classes, projects, arena, go-code), merged left on
      (college_id, college_name), then `fillna(0)`. */
  function Engage(frames: seq<Table>): (r: Table)
    requires |frames| == |EngageColumns|
    ensures NoMissing(r)
    ensures |r.rows| >= |frames[0].rows|
    ensures AllRectangular(frames) ==> Rectangular(r)
    ensures AllUnique(frames) ==> SameKeys(r, frames[0])
    ensures Labelled(frames, EngageColumns) ==> r.cols == EngageColumns
  {
    LabelledFold(frames, EngageColumns);
    Merged(frames)
  }

  /** `get_assess_data` (lines 324-328): the objective, subjective and
      coding test frames, in that order, merged left on
      (college_id, college_name), then `fillna(0)`. */
  function Assess(frames: seq<Table>): (r: Table)
    requires |frames| == |AssessColumns|
    ensures NoMissing(r)
    ensures |r.rows| >= |frames[0].rows|
    ensures AllRectangular(frames) ==> Rectangular(r)
    ensures AllUnique(frames) ==> SameKeys(r, frames[0])
    ensures Labelled(frames, AssessColumns) ==> r.cols == AssessColumns
  {
    LabelledFold(frames, AssessColumns);
    Merged(frames)
  }

  /** `get_track_data` (lines 389-393): the faculty, semester and regular
      feedback frames, in that order, merged left on
      (college_id, college_name), then `fillna(0)`. */
  function Track(frames: seq<Table>): (r: Table)
    requires |frames| == |TrackColumns|
    ensures NoMissing(r)
    ensures |r.rows| >= |frames[0].rows|
    ensures AllRectangular(frames) ==> Rectangular(r)
    ensures AllUnique(frames) ==> SameKeys(r, frames[0])
    ensures Labelled(frames, TrackColumns) ==> r.cols == TrackColumns
  {
    LabelledFold(frames, TrackColumns);
    Merged(frames)
  }

  /** `analyse_df["swoc_count"] = 0` (line 411): the roster with a count
      column that is 0 in every row. It adds a column without changing a
      single row sum, so the Analyse category contributes nothing. */
  function Analyse(roster: Table): (r: Table)
    ensures r.cols == roster.cols + [SwocColumn]
    ensures SameKeys(r, roster)
    ensures forall i | 0 <= i < |r.rows| ::
      && RowSum(r.rows[i].cells) == RowSum(roster.rows[i].cells)
      && |r.rows[i].cells| == |roster.rows[i].cells| + 1
      && r.rows[i].cells[..|roster.rows[i].cells|] == roster.rows[i].cells
      && r.rows[i].cells[|roster.rows[i].cells|] == Num(0)
    ensures Rectangular(roster) ==> Rectangular(r)
    ensures NoMissing(roster) ==> NoMissing(r)
  {
    var rows := seq(|roster.rows|, i requires 0 <= i < |roster.rows| =>
      RowSumAppend(roster.rows[i].cells, [Num(0)]);
      Row(roster.rows[i].id, roster.rows[i].name, roster.rows[i].cells + [Num(0)]));
    Table(roster.cols + [SwocColumn], rows)
  }
}
