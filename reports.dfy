/** `generate_reports` (teater_impact_of_students.py, lines 449-526): the six
    module frames, the in-place removal of any `name` column, then the
    detail and the summary reports. */
module Reports {
  import opened Frames
  import opened Extractors
  import Detail
  import Summary

  /** The frames the SQL queries return, one per query; reading them from
      the database is outside the model. */
  datatype Queries = Queries(
    teach: Table,
    questionnaire: Table, liveSurvey: Table, notify: Table, liveClass: Table,
    project: Table, arena: Table, goCode: Table,
    objective: Table, subjective: Table, coding: Table,
    faculty: Table, semester: Table, regular: Table,
    colleges: Table,
    remediate: Table)

  /** The frames of each module, in the order the module merges them. */
  function EngageFrames(q: Queries): seq<Table> {
    [q.questionnaire, q.liveSurvey, q.notify, q.liveClass, q.project, q.arena, q.goCode]
  }

  function AssessFrames(q: Queries): seq<Table> {
    [q.objective, q.subjective, q.coding]
  }

  function TrackFrames(q: Queries): seq<Table> {
    [q.faculty, q.semester, q.regular]
  }

  /** Every query frame is a DataFrame: one cell per column in each row. */
  predicate WellFormed(q: Queries) {
    && Rectangular(q.teach) && AllRectangular(EngageFrames(q)) && AllRectangular(AssessFrames(q))
    && AllRectangular(TrackFrames(q)) && Rectangular(q.colleges) && Rectangular(q.remediate)
  }

  /** No query frame repeats a college id. */
  predicate Unique(q: Queries) {
    && UniqueIds(q.teach) && AllUnique(EngageFrames(q)) && AllUnique(AssessFrames(q))
    && AllUnique(TrackFrames(q)) && UniqueIds(q.colleges) && UniqueIds(q.remediate)
  }

  const NameColumn := "name"
  /** The count columns of the Teach and Remediate queries. */
  const TeachColumn := "total_attendance"
  const RemediateColumn := "total_remediate_count"

  /** The queries label their count columns as the source writes them;
      the college query behind Analyse has only the key columns. */
  predicate QueryLabels(q: Queries) {
    && q.teach.cols == [TeachColumn]
    && Labelled(EngageFrames(q), EngageColumns)
    && Labelled(AssessFrames(q), AssessColumns)
    && Labelled(TrackFrames(q), TrackColumns)
    && q.colleges.cols == []
    && q.remediate.cols == [RemediateColumn]
  }

  /** The six module frames in `dfs` order (lines 456-461): each arrives
      zero-filled (lines 131, 263, 328, 393, 441; the Analyse roster has no
      count column of its own), well-formed query frames give well-formed
      module frames, and query frames without repeated college ids give
      module frames without them, the first holding the Teach rows and keys. */
  function Modules(q: Queries): (r: seq<Table>)
    ensures |r| == |Summary.Categories|
    ensures NoMissing(q.colleges) ==> forall k | 0 <= k < |r| :: NoMissing(r[k])
    ensures WellFormed(q) ==> AllRectangular(r)
    ensures Unique(q) ==> AllUnique(r) && SameKeys(r[0], q.teach)
  {
    ModuleFacts(q);
    [FillNa(q.teach),
     Engage(EngageFrames(q)),
     Assess(AssessFrames(q)),
     Track(TrackFrames(q)),
     Analyse(q.colleges),
     FillNa(q.remediate)]
  }

  lemma ModuleFacts(q: Queries)
    ensures var r := [FillNa(q.teach), Engage(EngageFrames(q)), Assess(AssessFrames(q)),
                      Track(TrackFrames(q)), Analyse(q.colleges), FillNa(q.remediate)];
      && (NoMissing(q.colleges) ==> forall k | 0 <= k < |r| :: NoMissing(r[k]))
      && (WellFormed(q) ==> AllRectangular(r))
      && (Unique(q) ==> AllUnique(r) && SameKeys(r[0], q.teach))
  {
    var engage := Engage(EngageFrames(q));
    var assess := Assess(AssessFrames(q));
    var track := Track(TrackFrames(q));
    var analyse := Analyse(q.colleges);
    if NoMissing(q.colleges) {
      SixNoMissing(FillNa(q.teach), engage, assess, track, analyse, FillNa(q.remediate));
    }
    if WellFormed(q) {
      SixRectangular(FillNa(q.teach), engage, assess, track, analyse, FillNa(q.remediate));
    }
    if Unique(q) {
      ModuleKeys(q);
      SixUnique(FillNa(q.teach), engage, assess, track, analyse, FillNa(q.remediate));
    }
  }

  /** Each module frame keeps the rows and keys of its first query frame. */
  lemma ModuleKeys(q: Queries)
    requires Unique(q)
    ensures UniqueIds(FillNa(q.teach)) && SameKeys(FillNa(q.teach), q.teach)
    ensures UniqueIds(Engage(EngageFrames(q))) && UniqueIds(Assess(AssessFrames(q)))
    ensures UniqueIds(Track(TrackFrames(q))) && UniqueIds(Analyse(q.colleges))
    ensures UniqueIds(FillNa(q.remediate))
  {
    assert UniqueIds(EngageFrames(q)[0]) && UniqueIds(AssessFrames(q)[0]) && UniqueIds(TrackFrames(q)[0]);
    SameKeysUnique(Engage(EngageFrames(q)), EngageFrames(q)[0]);
    SameKeysUnique(Assess(AssessFrames(q)), AssessFrames(q)[0]);
    SameKeysUnique(Track(TrackFrames(q)), TrackFrames(q)[0]);
    SameKeysUnique(FillNa(q.teach), q.teach);
    SameKeysUnique(Analyse(q.colleges), q.colleges);
    SameKeysUnique(FillNa(q.remediate), q.remediate);
  }

  lemma SixNoMissing(a: Table, b: Table, c: Table, d: Table, e: Table, f: Table)
    requires NoMissing(a) && NoMissing(b) && NoMissing(c)
    requires NoMissing(d) && NoMissing(e) && NoMissing(f)
    ensures var r := [a, b, c, d, e, f]; forall k | 0 <= k < |r| :: NoMissing(r[k])
  {
  }

  lemma SixRectangular(a: Table, b: Table, c: Table, d: Table, e: Table, f: Table)
    requires Rectangular(a) && Rectangular(b) && Rectangular(c)
    requires Rectangular(d) && Rectangular(e) && Rectangular(f)
    ensures AllRectangular([a, b, c, d, e, f])
  {
  }

  lemma SixUnique(a: Table, b: Table, c: Table, d: Table, e: Table, f: Table)
    requires UniqueIds(a) && UniqueIds(b) && UniqueIds(c)
    requires UniqueIds(d) && UniqueIds(e) && UniqueIds(f)
    ensures AllUnique([a, b, c, d, e, f])
  {
  }

  /** Same keys in the same order keep ids unique. */
  lemma SameKeysUnique(r: Table, t: Table)
    requires SameKeys(r, t) && UniqueIds(t)
    ensures UniqueIds(r)
  {
  }

  /** Frames once their `name` columns are gone. */
  function Dropped(m: seq<Table>): (r: seq<Table>)
    requires AllRectangular(m)
    ensures |r| == |m|
  {
    seq(|m|, k requires 0 <= k < |m| => DropColumn(m[k], NameColumn))
  }

  /** The module frames once their `name` columns are gone. */
  function Prepared(q: Queries): (r: seq<Table>)
    requires WellFormed(q)
    ensures |r| == |Summary.Categories|
  {
    Dropped(Modules(q))
  }

  /** The loop of lines 467-469: each frame loses its `name` column in
      place; the other columns, the rows and their keys stay. */
  method DropNameColumns(dfs: array<Table>)
    requires forall k | 0 <= k < dfs.Length :: Rectangular(dfs[k])
    modifies dfs
    ensures forall k | 0 <= k < dfs.Length :: dfs[k] == DropColumn(old(dfs[k]), NameColumn)
  {
    for k := 0 to dfs.Length
      invariant forall j | 0 <= j < k :: dfs[j] == DropColumn(old(dfs[j]), NameColumn)
      invariant forall j | k <= j < dfs.Length :: dfs[j] == old(dfs[j])
    {
      if NameColumn in dfs[k].cols {
        dfs[k] := DropColumn(dfs[k], NameColumn);
      }
    }
  }

  /** `generate_reports` after the queries: the detail and the summary
      built from the prepared frames. */
  method GenerateReports(q: Queries) returns (detail: Detail.DetailTable, summary: seq<Summary.SummaryRow>)
    requires WellFormed(q)
    ensures detail == Detail.DetailOf(Prepared(q))
    ensures summary == Summary.SummaryOf(Prepared(q))
  {
    detail, summary := ReportsFrom(Modules(q));
  }

  /** Lines 467-520 on the six module frames `m`: a `dfs` list holding them,
      the in-place removal of `name`, then both reports. */
  method ReportsFrom(m: seq<Table>) returns (detail: Detail.DetailTable, summary: seq<Summary.SummaryRow>)
    requires |m| == |Summary.Categories| && AllRectangular(m)
    ensures detail == Detail.DetailOf(Dropped(m))
    ensures summary == Summary.SummaryOf(Dropped(m))
  {
    var dfs := new Table[|m|](k requires 0 <= k < |m| => m[k]);
    assert dfs[..] == m;
    DropNameColumns(dfs);
    assert dfs[..] == Dropped(m);
    detail := Detail.DetailOf(dfs[..]);
    summary := Summary.BuildSummary(dfs);
  }

  /** The prepared frames keep the keys of the module frames. */
  lemma PreparedKeys(q: Queries)
    requires WellFormed(q) && Unique(q)
    ensures AllUnique(Prepared(q)) && AllRectangular(Prepared(q))
    ensures SameKeys(Prepared(q)[0], q.teach)
  {
    var m := Modules(q);
    var p := Prepared(q);
    forall k | 0 <= k < |p| ensures UniqueIds(p[k]) {
      assert UniqueIds(m[k]);
    }
  }

  /** When no query frame repeats a college id, both reports follow the
      Teach roster: the detail sheet has one row per Teach row, in its
      order and with its keys, and the summary has one row per Teach row
      plus the "Overall Total" row. */
  lemma ReportsFollowTeach(q: Queries)
    requires WellFormed(q) && Unique(q)
    ensures var d := Detail.DetailOf(Prepared(q));
      |d.rows| == |q.teach.rows|
      && forall i | 0 <= i < |d.rows| ::
        d.rows[i].sno == i + 1 && d.rows[i].id == q.teach.rows[i].id && d.rows[i].name == q.teach.rows[i].name
    ensures var s := Summary.SummaryOf(Prepared(q));
      |s| == |q.teach.rows| + 1 && s[|q.teach.rows|].collegeName == Summary.TotalName
  {
    var p := Prepared(q);
    PreparedKeys(q);
    assert AllUnique(p[1..]);
    Detail.DetailRows(p);
    Summary.SummaryShape(p);
  }

  /** The count columns of the detail sheet, in order. */
  const DetailColumns: seq<string> := ["total_attendance_x", "total_attendance_y", "total_live_survey",
    "total_notify_count", "total_live_class_count", "total_projects_count", "total_arena_count",
    "total_go_code_count", "total_objective_count", "total_subjective_count", "total_coding_count",
    "total_faculty_feedback", "total_semester_feedback", "total_regular_feedback", "swoc_count",
    "total_remediate_count"]

  /** Frames labelled as the queries label them, in `dfs` order. */
  predicate ModuleLabels(ts: seq<Table>) {
    && |ts| == |Summary.Categories|
    && ts[0].cols == [TeachColumn] && ts[1].cols == EngageColumns && ts[2].cols == AssessColumns
    && ts[3].cols == TrackColumns && ts[4].cols == [SwocColumn] && ts[5].cols == [RemediateColumn]
  }

  /** The first merge meets `total_attendance` on both sides and suffixes
      both; the other Engage labels come through unchanged. */
  lemma FirstMergeLabels()
    ensures MergeLabels([TeachColumn], EngageColumns) == DetailColumns[..8]
  {
    var l := Suffixed([TeachColumn], EngageColumns, "_x");
    var r := Suffixed(EngageColumns, [TeachColumn], "_y");
    assert EngageColumns[0] in EngageColumns;
    assert TeachColumn + "_x" == "total_attendance_x";
    assert TeachColumn + "_y" == "total_attendance_y";
    assert l == ["total_attendance_x"];
    assert r[0] == "total_attendance_y";
    forall j | 1 <= j < |EngageColumns| ensures r[j] == EngageColumns[j] {
      assert |EngageColumns[j]| != |TeachColumn|;
    }
    assert l + r == DetailColumns[..8];
  }

  lemma FourCols(a: Table, b: Table, c: Table, d: Table)
    ensures AllCols([a, b, c, d]) == a.cols + b.cols + c.cols + d.cols
  {
    assert [a, b, c, d][..3] == [a, b, c];
    assert [a, b, c][..2] == [a, b];
    assert [a, b][..1] == [a];
    assert [a][..0] == [];
    assert AllCols([a]) == a.cols;
    assert AllCols([a, b]) == a.cols + b.cols;
    assert AllCols([a, b, c]) == a.cols + b.cols + c.cols;
    assert AllCols([a, b, c, d]) == AllCols([a, b, c]) + d.cols;
  }

  /** The detail sheet's count columns, from frames labelled as the
      queries label them: Teach and the first Engage query both call their
      count `total_attendance`, so the first merge renames them
      `total_attendance_x` and `total_attendance_y`; no later label clashes. */
  lemma DetailLabels(ts: seq<Table>)
    requires ModuleLabels(ts)
    ensures Detail.DetailOf(ts).cols == DetailColumns
  {
    var rest := ts[1..];
    assert rest[1..] == [ts[2], ts[3], ts[4], ts[5]];
    FourCols(ts[2], ts[3], ts[4], ts[5]);
    LaterLabels();
    FirstMergeLabels();
    DetailColumnsDistinct();
    FoldLabelsAfterFirst(IdAndName, ts[0], rest);
  }

  /** The labels the merges after the first bring, and the whole label
      list they complete. */
  lemma LaterLabels()
    ensures AssessColumns + TrackColumns + [SwocColumn] + [RemediateColumn] == DetailColumns[8..]
    ensures DetailColumns[..8] + DetailColumns[8..] == DetailColumns
  {
  }

  lemma DetailColumnsDistinct()
    ensures Distinct(DetailColumns)
  {
  }

  /** No module frame labelled as the queries label them has a `name`
      column, so the drop leaves every frame as it is. */
  lemma NoNameColumn(ts: seq<Table>)
    requires ModuleLabels(ts) && AllRectangular(ts)
    ensures Dropped(ts) == ts
  {
    forall k | 0 <= k < |ts| ensures NameColumn !in ts[k].cols {
      forall c | c in ts[k].cols ensures c != NameColumn {
        assert |c| != |NameColumn| || c == SwocColumn;
      }
    }
  }

  /** The module frames carry the queries' labels. */
  lemma ModulesLabelled(q: Queries)
    requires QueryLabels(q)
    ensures ModuleLabels(Modules(q))
  {
    var engage := Engage(EngageFrames(q));
    var assess := Assess(AssessFrames(q));
    var track := Track(TrackFrames(q));
    var analyse := Analyse(q.colleges);
    assert engage.cols == EngageColumns && assess.cols == AssessColumns && track.cols == TrackColumns;
    assert analyse.cols == [SwocColumn];
    SixLabels(FillNa(q.teach), engage, assess, track, analyse, FillNa(q.remediate));
  }

  lemma SixLabels(a: Table, b: Table, c: Table, d: Table, e: Table, f: Table)
    requires a.cols == [TeachColumn] && b.cols == EngageColumns && c.cols == AssessColumns
    requires d.cols == TrackColumns && e.cols == [SwocColumn] && f.cols == [RemediateColumn]
    ensures ModuleLabels([a, b, c, d, e, f])
  {
  }

  /** With the queries' own labels, the detail sheet carries exactly the
      columns `DetailColumns`. */
  lemma ReportLabels(q: Queries)
    requires WellFormed(q) && QueryLabels(q)
    ensures Detail.DetailOf(Prepared(q)).cols == DetailColumns
  {
    ModulesLabelled(q);
    NoNameColumn(Modules(q));
    DetailLabels(Modules(q));
  }
}
