/** The summary report that `generate_reports` builds (teater_impact_of_students.py,
    lines 491-520): one row per college of the Teach roster holding its six
    category totals and their sum, sorted by that sum, numbered from 1, and
    closed by one "Overall Total" row of column sums. */
module Summary {
  import opened Frames

  /** The keys of `dfs_dict`, in its order; each names a category column. */
  const Categories: seq<string> := ["teach", "engage", "assess", "track", "analyse", "remediate"]
  const TotalColumn := "total"
  /** `numeric_columns` (line 507): the six categories, then `total`. */
  const NumericColumns: seq<string> := Categories + [TotalColumn]
  /** The labels of the synthetic last row (lines 513-515). */
  const TotalSerial := "Total"
  const TotalId := "-"
  const TotalName := "Overall Total"

  // ---------------------------------------------------------------------
  // Category totals (lines 493-499)
  // ---------------------------------------------------------------------

  /** The category total of row `r` of category frame `t`: the sum of the
      frame's count columns, or 0 when it has none. */
  function CategoryTotal(t: Table, r: Row): nat {
    if |t.cols| == 0 then 0 else RowSum(r.cells)
  }

  /** `df[name] = ...`: the frame with its category total appended as a column. */
  function WithCategory(t: Table, name: string): Table {
    Table(t.cols + [name], seq(|t.rows|, i requires 0 <= i < |t.rows| =>
      Row(t.rows[i].id, t.rows[i].name, t.rows[i].cells + [Num(CategoryTotal(t, t.rows[i]))])))
  }

  /** `df[["college_id", name]]`: each row's key and its category total. */
  function CategoryColumn(t: Table, name: string): Table {
    Table([name], seq(|t.rows|, i requires 0 <= i < |t.rows| =>
      Row(t.rows[i].id, t.rows[i].name, [Num(CategoryTotal(t, t.rows[i]))])))
  }

  /** `teach_df[["college_id", "college_name"]].copy()` (line 491). */
  function Roster(t: Table): Table {
    Table([], seq(|t.rows|, i requires 0 <= i < |t.rows| => Row(t.rows[i].id, t.rows[i].name, [])))
  }

  /** The category columns of the frames, in category order. */
  function Columns(ts: seq<Table>): seq<Table>
    requires |ts| <= |Categories|
  {
    seq(|ts|, k requires 0 <= k < |ts| => CategoryColumn(ts[k], Categories[k]))
  }

  /** `result_df` after the category loop and `fillna(0)` (lines 491-501). */
  function Frame(ts: seq<Table>): Table
    requires |ts| == |Categories|
  {
    FillNa(MergeFold(IdOnly, Roster(ts[0]), Columns(ts)))
  }

  /** Reference definition: the category total the college `id` gets from
      frame `t`, read off the frame directly: that of its row, or 0 when the
      frame has no row for it. */
  function CategoryOf(t: Table, id: int): nat {
    match FirstMatch(IdKey(id), t.rows)
    case Some(j) => CategoryTotal(t, t.rows[j])
    case None => 0
  }

  /** With unique ids, a college present at row `j` gets the sum of that
      row's count cells (0 when the frame has no count column), and a
      college absent from the frame gets 0. */
  lemma CategoryOfSpec(t: Table, id: int)
    requires UniqueIds(t) && Rectangular(t)
    ensures forall j | 0 <= j < |t.rows| && t.rows[j].id == id :: CategoryOf(t, id) == RowSum(t.rows[j].cells)
    ensures |t.cols| == 0 ==> CategoryOf(t, id) == 0
    ensures (forall j | 0 <= j < |t.rows| :: t.rows[j].id != id) ==> CategoryOf(t, id) == 0
  {
    var f := FirstMatch(IdKey(id), t.rows);
    forall j | 0 <= j < |t.rows| && t.rows[j].id == id
      ensures CategoryOf(t, id) == RowSum(t.rows[j].cells)
    {
      assert Matches(IdKey(id), t.rows[j]);
      assert f.Some?;
      assert t.rows[j] in t.rows;
    }
    if |t.cols| == 0 && f.Some? {
      assert t.rows[f.value] in t.rows;
    }
  }

  lemma {:induction false} ColumnWidths(ts: seq<Table>, k: nat)
    requires |ts| <= |Categories| && k <= |ts|
    ensures AllRectangular(Columns(ts)[..k])
    ensures Width(Columns(ts)[..k]) == k
  {
    var c := Columns(ts)[..k];
    forall j | 0 <= j < k ensures Rectangular(c[j]) {
      var t := ts[j];
      forall r | r in c[j].rows ensures |r.cells| == 1 {
        var i :| 0 <= i < |c[j].rows| && c[j].rows[i] == r;
      }
    }
    if k > 0 {
      ColumnWidths(ts, k - 1);
      assert c[..k - 1] == Columns(ts)[..k - 1];
    }
  }

  lemma ColumnsUnique(ts: seq<Table>)
    requires |ts| <= |Categories| && AllUnique(ts)
    ensures AllUnique(Columns(ts))
  {
    forall k | 0 <= k < |ts| ensures UniqueIds(Columns(ts)[k]) {
      assert UniqueIds(ts[k]);
    }
  }

  /** The total a college picks up from a category column is its
      `CategoryOf`, missing (so 0 once filled) when the frame lacks it. */
  lemma LookupCategory(t: Table, name: string, id: int)
    ensures |Lookup(IdKey(id), CategoryColumn(t, name))| == 1
    ensures Value(Lookup(IdKey(id), CategoryColumn(t, name))[0]) == CategoryOf(t, id)
  {
    FirstMatchSameKeys(IdKey(id), CategoryColumn(t, name).rows, t.rows);
  }

  // ---------------------------------------------------------------------
  // Tallies: the rows of `result_df` with `total` (line 502)
  // ---------------------------------------------------------------------

  /** A summary row before numbering: key, six category totals, total. */
  datatype Tally = Tally(id: int, name: string, cats: seq<nat>, total: nat)

  function SumNats(s: seq<nat>): nat {
    if s == [] then 0 else SumNats(s[..|s| - 1]) + s[|s| - 1]
  }

  /** `result_df["total"] = result_df[[...]].sum(axis=1)`. */
  function Tallies(t: Table): seq<Tally> {
    seq(|t.rows|, i requires 0 <= i < |t.rows| =>
      var cats := seq(|t.rows[i].cells|, k requires 0 <= k < |t.rows[i].cells| => Value(t.rows[i].cells[k]));
      Tally(t.rows[i].id, t.rows[i].name, cats, SumNats(cats)))
  }

  /** Reference definition: the tally a roster row should get, read off the
      six category frames directly. */
  function Expected(ts: seq<Table>, r: Row): Tally
    requires |ts| == |Categories|
  {
    var cats := seq(|Categories|, k requires 0 <= k < |Categories| => CategoryOf(ts[k], r.id));
    Tally(r.id, r.name, cats, SumNats(cats))
  }

  function ExpectedTallies(ts: seq<Table>, rs: seq<Row>): seq<Tally>
    requires |ts| == |Categories|
  {
    seq(|rs|, i requires 0 <= i < |rs| => Expected(ts, rs[i]))
  }

  /** Before sorting, the summary has one row per college of the Teach
      roster, in roster order, and each holds the six category totals read
      off the category frames (0 where a frame lacks the college) and
      their sum. */
  lemma TalliesFollowRoster(ts: seq<Table>)
    requires |ts| == |Categories| && AllUnique(ts)
    ensures Tallies(Frame(ts)) == ExpectedTallies(ts, ts[0].rows)
  {
    ColumnsUnique(ts);
    MergeFoldCount(IdOnly, Roster(ts[0]), Columns(ts));
    forall i | 0 <= i < |ts[0].rows| ensures Tallies(Frame(ts))[i] == Expected(ts, ts[0].rows[i]) {
      TallyRow(ts, i);
    }
  }

  /** Row `i` of the merged frame holds, in category order, what each
      category frame gives the `i`-th roster college. */
  lemma TallyRow(ts: seq<Table>, i: nat)
    requires |ts| == |Categories| && AllUnique(ts) && i < |ts[0].rows|
    ensures i < |Frame(ts).rows| && Tallies(Frame(ts))[i] == Expected(ts, ts[0].rows[i])
  {
    var roster := Roster(ts[0]);
    var cs := Columns(ts);
    var m := MergeFold(IdOnly, roster, cs);
    var id := ts[0].rows[i].id;
    var key := IdKey(id);
    ColumnsUnique(ts);
    ColumnWidths(ts, |ts|);
    assert cs[..|ts|] == cs;
    MergeFoldRow(IdOnly, roster, cs, i);
    assert KeyOf(IdOnly, roster.rows[i]) == key;
    assert m.rows[i].cells == [] + Segments(key, cs);
    SegmentsWidth(key, cs);
    var want := Expected(ts, ts[0].rows[i]);
    forall k | 0 <= k < |Categories| ensures Value(m.rows[i].cells[k]) == want.cats[k] {
      ColumnWidths(ts, k);
      SegmentsAt(key, cs, k, 0);
      LookupCategory(ts[k], Categories[k], id);
    }
    TallyOfRow(m, Frame(ts), i, want);
  }

  /** A filled row whose cells carry the values of a tally's categories
      tallies to it. */
  lemma TallyOfRow(m: Table, f: Table, i: nat, want: Tally)
    requires f == FillNa(m) && i < |m.rows|
    requires m.rows[i].id == want.id && m.rows[i].name == want.name
    requires |m.rows[i].cells| == |want.cats| && want.total == SumNats(want.cats)
    requires forall k | 0 <= k < |want.cats| :: Value(m.rows[i].cells[k]) == want.cats[k]
    ensures i < |f.rows| && Tallies(f)[i] == want
  {
    var t := Tallies(f)[i];
    assert t.cats == want.cats;
  }

  // ---------------------------------------------------------------------
  // sort_values(by="total", ascending=False) (line 503)
  // ---------------------------------------------------------------------

  predicate NonIncreasing(s: seq<Tally>) {
    forall i, j | 0 <= i < j < |s| :: s[i].total >= s[j].total
  }

  function Insert(x: Tally, s: seq<Tally>): (r: seq<Tally>)
    ensures multiset(r) == multiset(s) + multiset{x}
    ensures NonIncreasing(s) ==> NonIncreasing(r)
  {
    if s == [] || x.total >= s[0].total then
      [x] + s
    else
      assert s == [s[0]] + s[1..];
      var tail := Insert(x, s[1..]);
      InsertHead(x, s, tail);
      [s[0]] + tail
  }

  /** Every element of the insertion into the tail is `x` or a tail element,
      so none has a larger total than the head it goes behind. */
  lemma InsertHead(x: Tally, s: seq<Tally>, tail: seq<Tally>)
    requires s != [] && x.total < s[0].total
    requires multiset(tail) == multiset(s[1..]) + multiset{x}
    requires NonIncreasing(s[1..]) ==> NonIncreasing(tail)
    ensures NonIncreasing(s) ==> NonIncreasing([s[0]] + tail)
  {
    if NonIncreasing(s) {
      var r := [s[0]] + tail;
      forall j | 0 < j < |r| ensures r[0].total >= r[j].total {
        assert r[j] == tail[j - 1];
        assert tail[j - 1] in multiset(tail);
        if tail[j - 1] != x {
          assert tail[j - 1] in multiset(s[1..]);
          var m :| 0 <= m < |s[1..]| && s[1..][m] == tail[j - 1];
          assert s[m + 1] == tail[j - 1];
        }
      }
      assert NonIncreasing(s[1..]);
    }
  }

  /** The sort: a permutation of its input with `total` non-increasing. The
      order of rows with equal totals is whatever this definition picks;
      nothing proved about the summary depends on it. */
  function SortByTotal(s: seq<Tally>): (r: seq<Tally>)
    ensures multiset(r) == multiset(s)
    ensures NonIncreasing(r)
  {
    if s == [] then [] else
      assert s == [s[0]] + s[1..];
      Insert(s[0], SortByTotal(s[1..]))
  }

  // ---------------------------------------------------------------------
  // Numbering and the total row (lines 504-520)
  // ---------------------------------------------------------------------

  /** The value of an object column after `pd.concat` with the total row:
      a number for a college, a text sentinel for the total row. */
  datatype Label = Int(n: int) | Text(s: string)

  /** A row of the summary sheet: S.No, college_id, college_name, then the
      seven `numeric_columns`. */
  datatype SummaryRow = SummaryRow(sno: Label, collegeId: Label, collegeName: string, nums: seq<nat>)

  function Nums(t: Tally): seq<nat> {
    t.cats + [t.total]
  }

  /** `reset_index(drop=True)` and `insert(0, "S.No", range(1, len + 1))`. */
  function Numbered(s: seq<Tally>): seq<SummaryRow> {
    seq(|s|, i requires 0 <= i < |s| => SummaryRow(Int(i + 1), Int(s[i].id), s[i].name, Nums(s[i])))
  }

  function At(s: seq<nat>, k: nat): nat {
    if k < |s| then s[k] else 0
  }

  /** `result_df[col].sum()` over the real rows. */
  function ColumnSum(rows: seq<SummaryRow>, k: nat): nat {
    if rows == [] then 0 else ColumnSum(rows[..|rows| - 1], k) + At(rows[|rows| - 1].nums, k)
  }

  /** The synthetic "Overall Total" row: text sentinels for its labels and
      the column sum of each numeric column. */
  function TotalRow(rows: seq<SummaryRow>): SummaryRow {
    SummaryRow(Text(TotalSerial), Text(TotalId), TotalName,
      seq(|NumericColumns|, k requires 0 <= k < |NumericColumns| => ColumnSum(rows, k)))
  }

  /** The tallies of `result_df` once sorted by `total`. */
  function Ranked(ts: seq<Table>): seq<Tally>
    requires |ts| == |Categories|
  {
    SortByTotal(Tallies(Frame(ts)))
  }

  /** The whole summary sheet built from the six category frames. */
  function SummaryOf(ts: seq<Table>): seq<SummaryRow>
    requires |ts| == |Categories|
  {
    Sheet(Ranked(ts))
  }

  /** The numbered rows of ranked tallies, then their total row. */
  function Sheet(o: seq<Tally>): seq<SummaryRow> {
    var rows := Numbered(o);
    rows + [TotalRow(rows)]
  }

  // ---------------------------------------------------------------------
  // What the sheet holds
  // ---------------------------------------------------------------------

  /** Every sorted tally is one of the input tallies. */
  lemma SortFacts(xs: seq<Tally>)
    ensures var o := SortByTotal(xs);
      |o| == |xs| && forall i | 0 <= i < |o| :: exists j | 0 <= j < |xs| :: o[i] == xs[j]
  {
    var o := SortByTotal(xs);
    assert |o| == |multiset(o)| == |multiset(xs)| == |xs|;
    forall i | 0 <= i < |o| ensures exists j | 0 <= j < |xs| :: o[i] == xs[j] {
      assert o[i] in multiset(o);
      assert o[i] in xs;
    }
  }

  /** The sheet is the expected tallies of the Teach roster, sorted,
      numbered, and closed by their total row. */
  lemma SummaryOfExpected(ts: seq<Table>)
    requires |ts| == |Categories| && AllUnique(ts)
    ensures SummaryOf(ts) == Sheet(SortByTotal(ExpectedTallies(ts, ts[0].rows)))
  {
    TalliesFollowRoster(ts);
  }

  /** Row `i` of the sheet is the `i`-th ranked tally numbered `i + 1`;
      the last row is the total row of the rows above. */
  lemma SheetRows(o: seq<Tally>)
    ensures var s := Sheet(o);
      |s| == |o| + 1 && s[..|o|] == Numbered(o) && s[|o|] == TotalRow(Numbered(o))
      && forall i | 0 <= i < |o| :: s[i] == SummaryRow(Int(i + 1), Int(o[i].id), o[i].name, Nums(o[i]))
  {
    var s := Sheet(o);
    assert s[..|o|] == Numbered(o);
    forall i | 0 <= i < |o| ensures s[i] == SummaryRow(Int(i + 1), Int(o[i].id), o[i].name, Nums(o[i])) {
      assert s[i] == Numbered(o)[i];
    }
  }

  /** The cells of the expected tally of roster row `j`. */
  lemma ExpectedNums(ts: seq<Table>, rs: seq<Row>, j: nat)
    requires |ts| == |Categories| && j < |rs|
    ensures var nums := Nums(ExpectedTallies(ts, rs)[j]);
      |nums| == |NumericColumns|
      && (forall k | 0 <= k < |Categories| :: nums[k] == CategoryOf(ts[k], rs[j].id))
      && nums[|Categories|] == SumNats(nums[..|Categories|])
  {
    var t := ExpectedTallies(ts, rs)[j];
    assert Nums(t)[..|Categories|] == t.cats;
  }

  /** The sheet has one row per college of the Teach roster, numbered
      S.No 1..N, followed by the "Overall Total" row whose labels are the
      sentinels and whose cells are the column sums of the rows above. */
  lemma SummaryShape(ts: seq<Table>)
    requires |ts| == |Categories| && AllUnique(ts)
    ensures var s := SummaryOf(ts); var n := |ts[0].rows|;
      |s| == n + 1
      && (forall i | 0 <= i < n :: s[i].sno == Int(i + 1) && |s[i].nums| == |NumericColumns|)
      && s[n].sno == Text(TotalSerial) && s[n].collegeId == Text(TotalId) && s[n].collegeName == TotalName
      && |s[n].nums| == |NumericColumns|
      && forall k | 0 <= k < |NumericColumns| :: s[n].nums[k] == ColumnSum(s[..n], k)
  {
    SummaryOfExpected(ts);
    SheetShape(ts, ts[0].rows);
  }

  lemma SheetShape(ts: seq<Table>, rs: seq<Row>)
    requires |ts| == |Categories|
    ensures var s := Sheet(SortByTotal(ExpectedTallies(ts, rs))); var n := |rs|;
      |s| == n + 1
      && (forall i | 0 <= i < n :: s[i].sno == Int(i + 1) && |s[i].nums| == |NumericColumns|)
      && s[n].sno == Text(TotalSerial) && s[n].collegeId == Text(TotalId) && s[n].collegeName == TotalName
      && |s[n].nums| == |NumericColumns|
      && forall k | 0 <= k < |NumericColumns| :: s[n].nums[k] == ColumnSum(s[..n], k)
  {
    var e := ExpectedTallies(ts, rs);
    var o := SortByTotal(e);
    SortFacts(e);
    SheetRows(o);
    var s := Sheet(o);
    forall i | 0 <= i < |o| ensures |s[i].nums| == |NumericColumns| {
      var j :| 0 <= j < |e| && o[i] == e[j];
      ExpectedNums(ts, rs, j);
    }
  }

  /** The real rows are the expected tallies of the roster colleges, each
      exactly once (a permutation), ranked with `total` non-increasing.
      Which of two rows with equal totals comes first is not stated. */
  lemma SummaryRanked(ts: seq<Table>)
    requires |ts| == |Categories| && AllUnique(ts)
    ensures var s := SummaryOf(ts); var n := |ts[0].rows|;
      |s| == n + 1
      && exists order: seq<Tally> ::
        |order| == n
        && multiset(order) == multiset(ExpectedTallies(ts, ts[0].rows))
        && NonIncreasing(order)
        && forall i | 0 <= i < n :: s[i] == SummaryRow(Int(i + 1), Int(order[i].id), order[i].name, Nums(order[i]))
  {
    SummaryOfExpected(ts);
    var o := SortByTotal(ExpectedTallies(ts, ts[0].rows));
    SortFacts(ExpectedTallies(ts, ts[0].rows));
    SheetRows(o);
  }

  /** Every real row belongs to a roster college: it carries that college's
      key, its total from each category frame (`CategoryOf`: 0 where the
      frame has no row for it), and `total`, the sum of those six. */
  lemma SummaryRowsAdd(ts: seq<Table>)
    requires |ts| == |Categories| && AllUnique(ts)
    ensures var s := SummaryOf(ts); var rs := ts[0].rows;
      |s| == |rs| + 1
      && forall i | 0 <= i < |rs| :: exists j | 0 <= j < |rs| ::
        s[i].collegeId == Int(rs[j].id) && s[i].collegeName == rs[j].name
        && |s[i].nums| == |NumericColumns|
        && (forall k | 0 <= k < |Categories| :: s[i].nums[k] == CategoryOf(ts[k], rs[j].id))
        && s[i].nums[|Categories|] == SumNats(s[i].nums[..|Categories|])
  {
    SummaryOfExpected(ts);
    SheetFromExpected(ts, ts[0].rows);
  }

  lemma SheetFromExpected(ts: seq<Table>, rs: seq<Row>)
    requires |ts| == |Categories|
    ensures var s := Sheet(SortByTotal(ExpectedTallies(ts, rs)));
      |s| == |rs| + 1
      && forall i | 0 <= i < |rs| :: exists j | 0 <= j < |rs| ::
        s[i].collegeId == Int(rs[j].id) && s[i].collegeName == rs[j].name
        && |s[i].nums| == |NumericColumns|
        && (forall k | 0 <= k < |Categories| :: s[i].nums[k] == CategoryOf(ts[k], rs[j].id))
        && s[i].nums[|Categories|] == SumNats(s[i].nums[..|Categories|])
  {
    var e := ExpectedTallies(ts, rs);
    var o := SortByTotal(e);
    var s := Sheet(o);
    SortFacts(e);
    SheetRows(o);
    forall i | 0 <= i < |rs|
      ensures exists j | 0 <= j < |rs| ::
        s[i].collegeId == Int(rs[j].id) && s[i].collegeName == rs[j].name
        && |s[i].nums| == |NumericColumns|
        && (forall k | 0 <= k < |Categories| :: s[i].nums[k] == CategoryOf(ts[k], rs[j].id))
        && s[i].nums[|Categories|] == SumNats(s[i].nums[..|Categories|])
    {
      var j :| 0 <= j < |e| && o[i] == e[j];
      ExpectedNums(ts, rs, j);
      assert s[i].nums == Nums(e[j]);
      assert s[i].collegeId == Int(rs[j].id) && s[i].collegeName == rs[j].name;
    }
  }

  /** Reference definition: the sum over the roster of the totals the
      category frame `k` gives its colleges. */
  function CategorySum(ts: seq<Table>, rs: seq<Row>, k: nat): nat
    requires |ts| == |Categories| && k < |Categories|
  {
    if rs == [] then 0 else CategorySum(ts, rs[..|rs| - 1], k) + CategoryOf(ts[k], rs[|rs| - 1].id)
  }

  /** `Nums` column `k` summed over tallies. */
  function FieldSum(s: seq<Tally>, k: nat): nat {
    if s == [] then 0 else FieldSum(s[..|s| - 1], k) + At(Nums(s[|s| - 1]), k)
  }

  lemma {:induction false} ColumnSumNumbered(s: seq<Tally>, k: nat)
    ensures ColumnSum(Numbered(s), k) == FieldSum(s, k)
  {
    if s != [] {
      assert Numbered(s)[..|s| - 1] == Numbered(s[..|s| - 1]);
      ColumnSumNumbered(s[..|s| - 1], k);
    }
  }

  lemma {:induction false} FieldSumAppend(a: seq<Tally>, b: seq<Tally>, k: nat)
    ensures FieldSum(a + b, k) == FieldSum(a, k) + FieldSum(b, k)
  {
    if b != [] {
      assert (a + b)[..|a + b| - 1] == a + b[..|b| - 1];
      FieldSumAppend(a, b[..|b| - 1], k);
    } else {
      assert a + b == a;
    }
  }

  /** Taking row `j` out of a sequence takes its cell out of the sum. */
  lemma FieldSumRemove(b: seq<Tally>, j: nat, k: nat)
    requires j < |b|
    ensures FieldSum(b, k) == FieldSum(b[..j] + b[j + 1..], k) + At(Nums(b[j]), k)
  {
    assert b == b[..j] + [b[j]] + b[j + 1..];
    FieldSumAppend(b[..j] + [b[j]], b[j + 1..], k);
    FieldSumAppend(b[..j], [b[j]], k);
    FieldSumAppend(b[..j], b[j + 1..], k);
    assert [b[j]][..0] == [];
  }

  /** Column sums do not depend on row order. */
  lemma {:induction false} FieldSumPerm(a: seq<Tally>, b: seq<Tally>, k: nat)
    requires multiset(a) == multiset(b)
    ensures FieldSum(a, k) == FieldSum(b, k)
    decreases |a|
  {
    if a == [] {
      assert |b| == |multiset(b)| == 0;
    } else {
      var x := a[|a| - 1];
      var init := a[..|a| - 1];
      assert a == init + [x];
      assert x in multiset(b);
      var j :| 0 <= j < |b| && b[j] == x;
      var rest := b[..j] + b[j + 1..];
      RemoveOne(b, j);
      assert multiset(init) == multiset(a) - multiset{x};
      FieldSumPerm(init, rest, k);
      FieldSumRemove(b, j, k);
    }
  }

  lemma RemoveOne<T>(b: seq<T>, j: nat)
    requires j < |b|
    ensures multiset(b[..j] + b[j + 1..]) == multiset(b) - multiset{b[j]}
  {
    assert b == b[..j] + [b[j]] + b[j + 1..];
  }

  lemma {:induction false} FieldSumExpected(ts: seq<Table>, rs: seq<Row>, k: nat)
    requires |ts| == |Categories| && k < |Categories|
    ensures FieldSum(ExpectedTallies(ts, rs), k) == CategorySum(ts, rs, k)
  {
    if rs != [] {
      assert ExpectedTallies(ts, rs)[..|rs| - 1] == ExpectedTallies(ts, rs[..|rs| - 1]);
      FieldSumExpected(ts, rs[..|rs| - 1], k);
    }
  }

  lemma {:induction false} SumNatsAdd(a: seq<nat>, b: seq<nat>, c: seq<nat>)
    requires |a| == |b| == |c|
    requires forall k | 0 <= k < |c| :: c[k] == a[k] + b[k]
    ensures SumNats(c) == SumNats(a) + SumNats(b)
  {
    if c != [] {
      SumNatsAdd(a[..|a| - 1], b[..|b| - 1], c[..|c| - 1]);
    }
  }

  /** When every tally's `total` is the sum of its six categories, the sum
      of the `total` column is the sum of the six category column sums. */
  lemma {:induction false} FieldSumTotal(s: seq<Tally>)
    requires forall t | t in s :: |t.cats| == |Categories| && t.total == SumNats(t.cats)
    ensures FieldSum(s, |Categories|) == SumNats(seq(|Categories|, k requires 0 <= k < |Categories| => FieldSum(s, k)))
  {
    var sums := seq(|Categories|, k requires 0 <= k < |Categories| => FieldSum(s, k));
    if s == [] {
      assert SumNats(sums) == 0 by {
        SumNatsAdd(sums, sums, sums);
      }
    } else {
      var init := s[..|s| - 1];
      var x := s[|s| - 1];
      assert forall t | t in init :: t in s;
      FieldSumTotal(init);
      var before := seq(|Categories|, k requires 0 <= k < |Categories| => FieldSum(init, k));
      SumNatsAdd(before, x.cats, sums);
    }
  }

  /** Conservation: the "Overall Total" row holds, per category, the sum
      over the roster of what that category frame gives each college, and
      its `total` cell is the sum of its six category cells. */
  lemma SummaryConserves(ts: seq<Table>)
    requires |ts| == |Categories| && AllUnique(ts)
    ensures var s := SummaryOf(ts); var n := |ts[0].rows|;
      |s| == n + 1 && |s[n].nums| == |NumericColumns|
      && (forall k | 0 <= k < |Categories| :: s[n].nums[k] == CategorySum(ts, ts[0].rows, k))
      && s[n].nums[|Categories|] == SumNats(s[n].nums[..|Categories|])
  {
    SummaryOfExpected(ts);
    SheetConserves(ts, ts[0].rows);
  }

  lemma SheetConserves(ts: seq<Table>, rs: seq<Row>)
    requires |ts| == |Categories|
    ensures var s := Sheet(SortByTotal(ExpectedTallies(ts, rs))); var n := |rs|;
      |s| == n + 1 && |s[n].nums| == |NumericColumns|
      && (forall k | 0 <= k < |Categories| :: s[n].nums[k] == CategorySum(ts, rs, k))
      && s[n].nums[|Categories|] == SumNats(s[n].nums[..|Categories|])
  {
    var e := ExpectedTallies(ts, rs);
    var o := SortByTotal(e);
    SortFacts(e);
    SheetRows(o);
    forall t | t in o ensures |t.cats| == |Categories| && t.total == SumNats(t.cats) {
      var i :| 0 <= i < |o| && o[i] == t;
      var j :| 0 <= j < |e| && o[i] == e[j];
    }
    TotalRowSums(o);
    forall k | 0 <= k < |Categories| ensures FieldSum(o, k) == CategorySum(ts, rs, k) {
      FieldSumPerm(o, e, k);
      FieldSumExpected(ts, rs, k);
    }
  }

  /** The total row of tallies whose `total` is the sum of their
      categories holds the column sums, and its own `total` cell is the sum
      of its category cells. */
  lemma TotalRowSums(o: seq<Tally>)
    requires forall t | t in o :: |t.cats| == |Categories| && t.total == SumNats(t.cats)
    ensures var last := TotalRow(Numbered(o));
      |last.nums| == |NumericColumns|
      && (forall k | 0 <= k < |NumericColumns| :: last.nums[k] == FieldSum(o, k))
      && last.nums[|Categories|] == SumNats(last.nums[..|Categories|])
  {
    var last := TotalRow(Numbered(o));
    forall k | 0 <= k < |NumericColumns| ensures last.nums[k] == FieldSum(o, k) {
      ColumnSumNumbered(o, k);
    }
    FieldSumTotal(o);
    assert last.nums[..|Categories|] == seq(|Categories|, k requires 0 <= k < |Categories| => FieldSum(o, k));
  }

  /** The loop of lines 517-518: one column sum per numeric column. */
  method BuildTotalRow(rows: seq<SummaryRow>) returns (total: SummaryRow)
    ensures total == TotalRow(rows)
  {
    var sums: seq<nat> := [];
    for k := 0 to |NumericColumns|
      invariant |sums| == k
      invariant forall j | 0 <= j < k :: sums[j] == ColumnSum(rows, j)
    {
      sums := sums + [ColumnSum(rows, k)];
    }
    total := SummaryRow(Text(TotalSerial), Text(TotalId), TotalName, sums);
  }

  /** One more turn of the merge loop extends the fold by one column. */
  lemma FoldStep(ts: seq<Table>, k: nat)
    requires |ts| == |Categories| && k < |ts|
    ensures MergeFold(IdOnly, Roster(ts[0]), Columns(ts)[..k + 1])
         == LeftMerge(IdOnly, MergeFold(IdOnly, Roster(ts[0]), Columns(ts)[..k]), CategoryColumn(ts[k], Categories[k]))
  {
    assert Columns(ts)[..k + 1][..k] == Columns(ts)[..k];
  }

  /** The frames once the first `k` of them carry their category column. */
  function Tagged(ts: seq<Table>, k: nat): (r: seq<Table>)
    requires |ts| <= |Categories|
    ensures |r| == |ts|
  {
    seq(|ts|, j requires 0 <= j < |ts| => if j < k then WithCategory(ts[j], Categories[j]) else ts[j])
  }

  lemma TagStep(ts: seq<Table>, k: nat)
    requires |ts| <= |Categories| && k < |ts|
    ensures Tagged(ts, k)[k] == ts[k]
    ensures Tagged(ts, k)[k := WithCategory(ts[k], Categories[k])] == Tagged(ts, k + 1)
  {
  }

  /** The loop of lines 493-499: each frame gets its category total as a
      new column, in place, and that column is merged into `result_df` on
      college_id. */
  method MergeCategories(dfs: array<Table>) returns (result: Table)
    requires dfs.Length == |Categories|
    modifies dfs
    ensures result == MergeFold(IdOnly, Roster(old(dfs[0])), Columns(old(dfs[..])))
    ensures dfs[..] == Tagged(old(dfs[..]), |Categories|)
  {
    ghost var ts := dfs[..];
    ghost var roster := Roster(ts[0]);
    ghost var cs := Columns(ts);
    result := Roster(dfs[0]);
    var k := 0;
    assert dfs[..] == Tagged(ts, 0);
    while k < dfs.Length
      invariant 0 <= k <= dfs.Length
      invariant result == MergeFold(IdOnly, roster, cs[..k])
      invariant dfs[..] == Tagged(ts, k)
    {
      TagStep(ts, k);
      var df := dfs[k];
      var name := Categories[k];
      FoldStep(ts, k);
      result := LeftMerge(IdOnly, result, CategoryColumn(df, name));
      dfs[k] := WithCategory(df, name);
      k := k + 1;
    }
    assert cs[..k] == cs;
  }

  /** Lines 491-520 with the frames of `dfs` in category order: the merge
      loop, then `fillna(0)`, the total, the sort, the numbering and the
      total row. */
  method BuildSummary(dfs: array<Table>) returns (summary: seq<SummaryRow>)
    requires dfs.Length == |Categories|
    modifies dfs
    ensures summary == SummaryOf(old(dfs[..]))
    ensures dfs[..] == Tagged(old(dfs[..]), |Categories|)
  {
    var merged := MergeCategories(dfs);
    var filled := FillNa(merged);
    var ranked := Numbered(SortByTotal(Tallies(filled)));
    var totalRow := BuildTotalRow(ranked);
    summary := ranked + [totalRow];
  }
}
