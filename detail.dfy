/** The detail report that `generate_reports` builds (teater_impact_of_students.py,
    lines 471-477): the six module frames merged left to right on
    (college_id, college_name), missing values replaced by 0, and a serial
    number column in front. */
module Detail {
  import opened Frames

  /** A row of the detail sheet: S.No, the key, then the merged cells. */
  datatype DetailRow = DetailRow(sno: nat, id: int, name: string, cells: seq<Cell>)

  datatype DetailTable = DetailTable(cols: seq<string>, rows: seq<DetailRow>)

  /** `insert(0, "S.No", range(1, len + 1))`. */
  function InsertSerial(t: Table): DetailTable {
    DetailTable(t.cols, seq(|t.rows|, i requires 0 <= i < |t.rows| =>
      DetailRow(i + 1, t.rows[i].id, t.rows[i].name, t.rows[i].cells)))
  }

  /** `reduce(lambda left, right: pd.merge(left, right, on=[...], how="left"), dfs)`
      followed by `fillna(0)`. */
  function Combined(ts: seq<Table>): Table
    requires |ts| > 0
  {
    FillNa(MergeFold(IdAndName, ts[0], ts[1..]))
  }

  /** The detail sheet built from the frames in `dfs` order. */
  function DetailOf(ts: seq<Table>): DetailTable
    requires |ts| > 0
  {
    InsertSerial(Combined(ts))
  }

  /** When each frame merged onto the first has unique college ids, the
      detail sheet has exactly the rows of the first (Teach) frame, in its
      order and with its keys, numbered S.No 1..N, and no cell is missing. */
  lemma DetailRows(ts: seq<Table>)
    requires |ts| > 0 && AllUnique(ts[1..])
    ensures var d := DetailOf(ts);
      |d.rows| == |ts[0].rows|
      && forall i | 0 <= i < |d.rows| ::
        d.rows[i].sno == i + 1 && d.rows[i].id == ts[0].rows[i].id && d.rows[i].name == ts[0].rows[i].name
        && forall c | c in d.rows[i].cells :: c.Num?
  {
    var m := Combined(ts);
    FilledFoldShape(IdAndName, ts[0], ts[1..]);
    forall i | 0 <= i < |m.rows| ensures forall c | c in m.rows[i].cells :: c.Num? {
      assert m.rows[i] in m.rows;
    }
  }

  /** Whatever the frames hold, the detail sheet never has fewer rows than
      the Teach frame: a left merge keeps every left row. */
  lemma DetailKeepsRoster(ts: seq<Table>)
    requires |ts| > 0
    ensures |DetailOf(ts).rows| >= |ts[0].rows|
  {
    FilledFoldShape(IdAndName, ts[0], ts[1..]);
  }

  /** When no column label occurs twice among the frames, the detail
      sheet's columns are the frames' columns one after the other. */
  lemma DetailColumns(ts: seq<Table>)
    requires |ts| > 0 && Distinct(ts[0].cols + AllCols(ts[1..]))
    ensures DetailOf(ts).cols == ts[0].cols + AllCols(ts[1..])
  {
    FilledFoldShape(IdAndName, ts[0], ts[1..]);
  }

  /** The Teach frame's own cells lead each row, zero-filled. */
  lemma DetailLeads(ts: seq<Table>, i: nat, c: nat)
    requires |ts| > 0 && AllUnique(ts[1..]) && Rectangular(ts[0])
    requires i < |ts[0].rows| && c < |ts[0].cols|
    ensures var d := DetailOf(ts);
      i < |d.rows| && c < |d.rows[i].cells| && d.rows[i].cells[c] == Fill(ts[0].rows[i].cells[c])
  {
    ZeroFilledFoldLeads(IdAndName, ts[0], ts[1..], i, c);
  }

  /** Zero-fill: column `c` of frame `n` sits, in row `i`, at offset
      `|ts[0].cols| + Width(ts[1..n]) + c`; it holds the value of the row of
      frame `n` with the same college_id and college_name, and 0 when frame
      `n` has no such row. */
  lemma DetailZeroFill(ts: seq<Table>, i: nat, n: nat, c: nat)
    requires |ts| > 0 && Rectangular(ts[0]) && AllRectangular(ts[1..]) && AllUnique(ts[1..])
    requires i < |ts[0].rows| && 0 < n < |ts| && c < |ts[n].cols|
    ensures var d := DetailOf(ts); var key := IdNameKey(ts[0].rows[i].id, ts[0].rows[i].name);
      var at := |ts[0].cols| + Width(ts[1..n]) + c;
      && i < |d.rows| && at < |d.rows[i].cells|
      && (forall j | 0 <= j < |ts[n].rows| && Matches(key, ts[n].rows[j]) ::
            d.rows[i].cells[at] == Fill(ts[n].rows[j].cells[c]))
      && ((forall j | 0 <= j < |ts[n].rows| :: !Matches(key, ts[n].rows[j])) ==> d.rows[i].cells[at] == Num(0))
  {
    var rest := ts[1..];
    assert rest[..n - 1] == ts[1..n];
    assert rest[n - 1] == ts[n];
    ZeroFilledFold(IdAndName, ts[0], rest, i, n - 1, c);
  }
}
