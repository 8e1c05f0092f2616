/** A row-major model of the pandas DataFrames that the TEATER report pipeline
    builds: every frame is keyed by `college_id` and `college_name`, and every
    other column holds a count. The operations are the pandas calls the
    pipeline uses: `fillna(0)`, `drop(columns=[...])`, a left `merge` on the
    key columns, and a left-to-right fold of merges (`functools.reduce`). */
module Frames {

  datatype Option<T> = None | Some(value: T)

  /** One cell of a count column. `NaN` is the missing value a left merge
      leaves in the columns of a left row that found no partner. */
  datatype Cell = Num(n: nat) | NaN

  /** A row: the key columns `college_id` and `college_name`, then one cell
      per count column, in column order. */
  datatype Row = Row(id: int, name: string, cells: seq<Cell>)

  /** A frame: the labels of its count columns and its rows, in index order. */
  datatype Table = Table(cols: seq<string>, rows: seq<Row>)

  /** Every row has one cell per count column, as in any DataFrame. */
  predicate Rectangular(t: Table) {
    forall r | r in t.rows :: |r.cells| == |t.cols|
  }

  predicate AllRectangular(ts: seq<Table>) {
    forall k | 0 <= k < |ts| :: Rectangular(ts[k])
  }

  /** No two rows share a `college_id`. */
  predicate UniqueKeys(rs: seq<Row>) {
    forall i, j | 0 <= i < j < |rs| :: rs[i].id != rs[j].id
  }

  predicate UniqueIds(t: Table) {
    UniqueKeys(t.rows)
  }

  predicate AllUnique(ts: seq<Table>) {
    forall k | 0 <= k < |ts| :: UniqueIds(ts[k])
  }

  /** No cell of the frame is missing. */
  predicate NoMissing(t: Table) {
    forall r | r in t.rows :: forall c | c in r.cells :: c.Num?
  }

  /** `r` has the rows of `t`, with their keys, in their order. */
  predicate SameKeys(r: Table, t: Table) {
    && |r.rows| == |t.rows|
    && forall i | 0 <= i < |t.rows| :: r.rows[i].id == t.rows[i].id && r.rows[i].name == t.rows[i].name
  }

  /** No label occurs twice. */
  predicate Distinct(cols: seq<string>) {
    forall i, j | 0 <= i < j < |cols| :: cols[i] != cols[j]
  }

  // ---------------------------------------------------------------------
  // Row sums
  // ---------------------------------------------------------------------

  /** What `sum(axis=1)` adds for a cell: missing cells are skipped. */
  function Value(c: Cell): nat {
    if c.Num? then c.n else 0
  }

  /** `sum(axis=1)` over the given cells. */
  function RowSum(cells: seq<Cell>): nat {
    if cells == [] then 0 else RowSum(cells[..|cells| - 1]) + Value(cells[|cells| - 1])
  }

  lemma {:induction false} RowSumAppend(a: seq<Cell>, b: seq<Cell>)
    ensures RowSum(a + b) == RowSum(a) + RowSum(b)
  {
    if b != [] {
      assert (a + b)[..|a + b| - 1] == a + b[..|b| - 1];
      RowSumAppend(a, b[..|b| - 1]);
    } else {
      assert a + b == a;
    }
  }

  /** A row sum is zero exactly when every cell is zero or missing. */
  lemma {:induction false} RowSumZero(cells: seq<Cell>)
    ensures RowSum(cells) == 0 <==> forall j | 0 <= j < |cells| :: Value(cells[j]) == 0
  {
    if cells != [] {
      var init := cells[..|cells| - 1];
      RowSumZero(init);
      if RowSum(cells) == 0 {
        forall j | 0 <= j < |cells| ensures Value(cells[j]) == 0 {
          if j < |cells| - 1 { assert cells[j] == init[j]; }
        }
      }
    }
  }

  // ---------------------------------------------------------------------
  // fillna(0)
  // ---------------------------------------------------------------------

  function Fill(c: Cell): Cell {
    if c.NaN? then Num(0) else c
  }

  function FillCells(cs: seq<Cell>): seq<Cell> {
    seq(|cs|, j requires 0 <= j < |cs| => Fill(cs[j]))
  }

  /** `fillna(0)`: every missing cell becomes 0 and nothing else changes, so
      no missing cell remains and every row sum is what it was. */
  function FillNa(t: Table): (r: Table)
    ensures r.cols == t.cols && |r.rows| == |t.rows|
    ensures forall i | 0 <= i < |t.rows| ::
      && r.rows[i].id == t.rows[i].id
      && r.rows[i].name == t.rows[i].name
      && |r.rows[i].cells| == |t.rows[i].cells|
      && forall j | 0 <= j < |t.rows[i].cells| ::
           && Value(r.rows[i].cells[j]) == Value(t.rows[i].cells[j])
           && (t.rows[i].cells[j].Num? ==> r.rows[i].cells[j] == t.rows[i].cells[j])
    ensures NoMissing(r)
    ensures Rectangular(t) ==> Rectangular(r)
  {
    Table(t.cols, seq(|t.rows|, i requires 0 <= i < |t.rows| =>
      Row(t.rows[i].id, t.rows[i].name, FillCells(t.rows[i].cells))))
  }

  /** Filling a frame that has no missing cell leaves it as it was. */
  lemma FillNaNoMissing(t: Table)
    requires NoMissing(t)
    ensures FillNa(t) == t
  {
    var r := FillNa(t);
    forall i | 0 <= i < |t.rows| ensures r.rows[i] == t.rows[i] {
      assert t.rows[i] in t.rows;
      forall j | 0 <= j < |t.rows[i].cells| ensures r.rows[i].cells[j] == t.rows[i].cells[j] {
        assert t.rows[i].cells[j] in t.rows[i].cells;
      }
    }
  }

  // ---------------------------------------------------------------------
  // drop(columns=[...])
  // ---------------------------------------------------------------------

  /** How many of the labels are `drop`. */
  function Count(cols: seq<string>, drop: string): (n: nat)
    ensures n <= |cols|
    ensures n == 0 <==> drop !in cols
  {
    if cols == [] then 0 else (if cols[0] == drop then 1 else 0) + Count(cols[1..], drop)
  }

  /** The elements of `xs` that sit under a column not labelled `drop`. */
  function Unlabelled<T>(cols: seq<string>, xs: seq<T>, drop: string): (r: seq<T>)
    requires |xs| == |cols|
    ensures |r| == |xs| - Count(cols, drop)
  {
    if cols == [] then []
    else (if cols[0] == drop then [] else [xs[0]]) + Unlabelled(cols[1..], xs[1..], drop)
  }

  /** A kept element moves left by the number of dropped columns before it. */
  lemma {:induction false} UnlabelledAt<T>(cols: seq<string>, xs: seq<T>, drop: string, j: nat)
    requires |xs| == |cols| && j < |cols| && cols[j] != drop
    ensures Count(cols[..j], drop) <= j
    ensures j - Count(cols[..j], drop) < |Unlabelled(cols, xs, drop)|
    ensures Unlabelled(cols, xs, drop)[j - Count(cols[..j], drop)] == xs[j]
  {
    if j > 0 {
      assert cols[..j][1..] == cols[1..][..j - 1];
      UnlabelledAt(cols[1..], xs[1..], drop, j - 1);
    }
  }

  lemma {:induction false} UnlabelledMembers(cols: seq<string>, drop: string)
    ensures forall c :: c in Unlabelled(cols, cols, drop) <==> c in cols && c != drop
  {
    if cols != [] {
      UnlabelledMembers(cols[1..], drop);
      assert cols == [cols[0]] + cols[1..];
    }
  }

  lemma {:induction false} UnlabelledNone<T>(cols: seq<string>, xs: seq<T>, drop: string)
    requires |xs| == |cols| && drop !in cols
    ensures Unlabelled(cols, xs, drop) == xs
  {
    if cols != [] {
      UnlabelledNone(cols[1..], xs[1..], drop);
      assert xs == [xs[0]] + xs[1..];
    }
  }

  /** `if drop in df.columns: df.drop(columns=[drop])`: every column
      labelled `drop` goes, every row stays with its key. */
  function DropColumn(t: Table, drop: string): (r: Table)
    requires Rectangular(t)
    ensures drop !in r.cols
    ensures forall c :: c in r.cols <==> c in t.cols && c != drop
    ensures |r.cols| == |t.cols| - Count(t.cols, drop)
    ensures Rectangular(r)
    ensures |r.rows| == |t.rows|
    ensures forall i | 0 <= i < |t.rows| :: r.rows[i].id == t.rows[i].id && r.rows[i].name == t.rows[i].name
    ensures drop !in t.cols ==> r == t
  {
    if drop in t.cols then
      UnlabelledMembers(t.cols, drop);
      var rows := seq(|t.rows|, i requires 0 <= i < |t.rows| =>
        assert t.rows[i] in t.rows;
        Row(t.rows[i].id, t.rows[i].name, Unlabelled(t.cols, t.rows[i].cells, drop)));
      Table(Unlabelled(t.cols, t.cols, drop), rows)
    else
      t
  }

  /** Every column not labelled `drop` survives the drop with its label
      and its cells, shifted left by the number of dropped columns before it. */
  lemma DropColumnKeeps(t: Table, drop: string, i: nat, j: nat)
    requires Rectangular(t) && i < |t.rows| && j < |t.cols| && t.cols[j] != drop
    ensures Count(t.cols[..j], drop) <= j
    ensures var r := DropColumn(t, drop); var at := j - Count(t.cols[..j], drop);
      && at < |r.cols|
      && r.cols[at] == t.cols[j]
      && r.rows[i].cells[at] == t.rows[i].cells[j]
  {
    assert t.rows[i] in t.rows;
    UnlabelledAt(t.cols, t.cols, drop, j);
    UnlabelledAt(t.cols, t.rows[i].cells, drop, j);
    if drop !in t.cols {
      assert drop !in t.cols[..j];
    }
  }

  // ---------------------------------------------------------------------
  // merge(how="left")
  // ---------------------------------------------------------------------

  /** The `on=` argument of a merge. */
  datatype On = IdAndName | IdOnly

  /** The key a left row looks for in the right frame. */
  datatype Key = IdKey(id: int) | IdNameKey(id: int, name: string)

  function KeyOf(on: On, r: Row): Key {
    match on
    case IdAndName => IdNameKey(r.id, r.name)
    case IdOnly => IdKey(r.id)
  }

  predicate Matches(k: Key, r: Row) {
    match k
    case IdKey(id) => r.id == id
    case IdNameKey(id, name) => r.id == id && r.name == name
  }

  /** The rows of `rs` that match the key, in their order. */
  function Matching(k: Key, rs: seq<Row>): (m: seq<Row>)
    ensures forall r | r in m :: r in rs && Matches(k, r)
  {
    if rs == [] then []
    else (if Matches(k, rs[0]) then [rs[0]] else []) + Matching(k, rs[1..])
  }

  /** The index of the first row that matches the key, if there is one. */
  function FirstMatch(k: Key, rs: seq<Row>): (r: Option<nat>)
    ensures r.Some? ==> r.value < |rs| && Matches(k, rs[r.value])
    ensures r.Some? ==> forall j | 0 <= j < r.value :: !Matches(k, rs[j])
    ensures r.None? ==> forall j | 0 <= j < |rs| :: !Matches(k, rs[j])
  {
    if rs == [] then None
    else if Matches(k, rs[0]) then Some(0)
    else match FirstMatch(k, rs[1..])
      case None => None
      case Some(j) => Some(j + 1)
  }

  /** Two row sequences with the same keys, row by row, match the same key
      at the same place. */
  lemma {:induction false} FirstMatchSameKeys(k: Key, a: seq<Row>, b: seq<Row>)
    requires |a| == |b|
    requires forall i | 0 <= i < |a| :: a[i].id == b[i].id && a[i].name == b[i].name
    ensures FirstMatch(k, a) == FirstMatch(k, b)
  {
    if a != [] {
      FirstMatchSameKeys(k, a[1..], b[1..]);
    }
  }

  /** With unique ids a key matches at most one row: the first match. */
  lemma {:induction false} MatchingUnique(k: Key, rs: seq<Row>)
    requires UniqueKeys(rs)
    ensures Matching(k, rs) == match FirstMatch(k, rs) case None => [] case Some(j) => [rs[j]]
  {
    if rs != [] {
      MatchingUnique(k, rs[1..]);
    }
  }

  /** `n` missing cells: what an unmatched left row gets for the right
      frame's columns. */
  function Blank(n: nat): (r: seq<Cell>)
    ensures |r| == n && forall j | 0 <= j < n :: r[j] == NaN
  {
    seq(n, _ => NaN)
  }

  /** The cells a key picks up from the right frame: those of its first
      matching row, or missing cells when no row matches. */
  function Lookup(k: Key, right: Table): seq<Cell> {
    match FirstMatch(k, right.rows)
    case Some(j) => right.rows[j].cells
    case None => Blank(|right.cols|)
  }

  lemma LookupWidth(k: Key, right: Table)
    requires Rectangular(right)
    ensures |Lookup(k, right)| == |right.cols|
  {
    var f := FirstMatch(k, right.rows);
    if f.Some? {
      assert right.rows[f.value] in right.rows;
    }
  }

  /** With unique ids, a key present at row `j` picks up row `j`'s cells, and
      an absent key picks up missing cells only. */
  lemma LookupSpec(k: Key, right: Table)
    requires UniqueIds(right)
    ensures forall j | 0 <= j < |right.rows| && Matches(k, right.rows[j]) :: Lookup(k, right) == right.rows[j].cells
    ensures (forall j | 0 <= j < |right.rows| :: !Matches(k, right.rows[j])) ==> Lookup(k, right) == Blank(|right.cols|)
  {
    var f := FirstMatch(k, right.rows);
    forall j | 0 <= j < |right.rows| && Matches(k, right.rows[j])
      ensures Lookup(k, right) == right.rows[j].cells
    {
      assert f.Some?;
    }
  }

  /** pandas' suffixing of the columns both sides carry: `_x` on the left,
      `_y` on the right. */
  function Suffixed(cols: seq<string>, other: seq<string>, suffix: string): (r: seq<string>)
    ensures |r| == |cols|
  {
    seq(|cols|, j requires 0 <= j < |cols| => if cols[j] in other then cols[j] + suffix else cols[j])
  }

  function MergeLabels(left: seq<string>, right: seq<string>): seq<string> {
    Suffixed(left, right, "_x") + Suffixed(right, left, "_y")
  }

  /** Labels no two sides share come through unchanged. */
  lemma MergeLabelsDisjoint(left: seq<string>, right: seq<string>)
    requires forall c | c in left :: c !in right
    ensures MergeLabels(left, right) == left + right
  {
    var l := Suffixed(left, right, "_x");
    var r := Suffixed(right, left, "_y");
    forall j | 0 <= j < |left| ensures l[j] == left[j] { assert left[j] in left; }
    forall j | 0 <= j < |right| ensures r[j] == right[j] { }
  }

  /** The rows one left row becomes: one per matching right row, in the
      right frame's order, or a single row with missing cells. */
  function JoinRow(on: On, l: Row, right: Table): seq<Row> {
    var m := Matching(KeyOf(on, l), right.rows);
    if m == [] then [Row(l.id, l.name, l.cells + Blank(|right.cols|))]
    else seq(|m|, k requires 0 <= k < |m| => Row(l.id, l.name, l.cells + m[k].cells))
  }

  function JoinRows(on: On, ls: seq<Row>, right: Table): seq<Row> {
    if ls == [] then [] else JoinRow(on, ls[0], right) + JoinRows(on, ls[1..], right)
  }

  /** `left.merge(right, on=..., how="left")`. */
  function LeftMerge(on: On, left: Table, right: Table): Table {
    Table(MergeLabels(left.cols, right.cols), JoinRows(on, left.rows, right))
  }

  /** A left merge never loses a left row: each becomes at least one row. */
  lemma {:induction false} JoinRowsKeepAll(on: On, ls: seq<Row>, right: Table)
    ensures |JoinRows(on, ls, right)| >= |ls|
  {
    if ls != [] {
      JoinRowsKeepAll(on, ls[1..], right);
    }
  }

  lemma {:induction false} JoinRowsUnique(on: On, ls: seq<Row>, right: Table)
    requires UniqueIds(right)
    ensures var r := JoinRows(on, ls, right);
      && |r| == |ls|
      && forall i | 0 <= i < |ls| :: r[i] == Row(ls[i].id, ls[i].name, ls[i].cells + Lookup(KeyOf(on, ls[i]), right))
  {
    if ls != [] {
      var head := JoinRow(on, ls[0], right);
      var tail := JoinRows(on, ls[1..], right);
      JoinRowsUnique(on, ls[1..], right);
      JoinRowUnique(on, ls[0], right);
      forall i | 0 <= i < |ls|
        ensures (head + tail)[i] == Row(ls[i].id, ls[i].name, ls[i].cells + Lookup(KeyOf(on, ls[i]), right))
      {
        if i > 0 {
          assert (head + tail)[i] == tail[i - 1];
          assert ls[1..][i - 1] == ls[i];
        }
      }
    }
  }

  /** With unique ids on the right, a left row becomes exactly one row. */
  lemma JoinRowUnique(on: On, l: Row, right: Table)
    requires UniqueIds(right)
    ensures JoinRow(on, l, right) == [Row(l.id, l.name, l.cells + Lookup(KeyOf(on, l), right))]
  {
    MatchingUnique(KeyOf(on, l), right.rows);
  }

  /** With unique ids on the right, a left merge keeps exactly the left rows,
      in their order, each extended with the cells its key picks up. */
  lemma LeftMergeRows(on: On, left: Table, right: Table)
    requires UniqueIds(right)
    ensures var r := LeftMerge(on, left, right);
      && |r.rows| == |left.rows|
      && forall i | 0 <= i < |left.rows| ::
           r.rows[i] == Row(left.rows[i].id, left.rows[i].name, left.rows[i].cells + Lookup(KeyOf(on, left.rows[i]), right))
  {
    JoinRowsUnique(on, left.rows, right);
  }

  /** Row `i` of a left merge whose right frame has unique ids. */
  lemma LeftMergeRow(on: On, left: Table, right: Table, i: nat)
    requires UniqueIds(right) && i < |left.rows|
    ensures var r := LeftMerge(on, left, right);
      && i < |r.rows|
      && r.rows[i] == Row(left.rows[i].id, left.rows[i].name, left.rows[i].cells + Lookup(KeyOf(on, left.rows[i]), right))
  {
    JoinRowsUnique(on, left.rows, right);
  }

  lemma {:induction false} JoinRowsWidth(on: On, ls: seq<Row>, right: Table, w: nat)
    requires Rectangular(right)
    requires forall l | l in ls :: |l.cells| == w
    ensures forall r | r in JoinRows(on, ls, right) :: |r.cells| == w + |right.cols|
  {
    if ls != [] {
      assert ls[0] in ls;
      JoinRowsWidth(on, ls[1..], right, w);
      var m := Matching(KeyOf(on, ls[0]), right.rows);
      forall r | r in JoinRow(on, ls[0], right) ensures |r.cells| == w + |right.cols| {
        if m != [] {
          var k :| 0 <= k < |m| && r == JoinRow(on, ls[0], right)[k];
          assert m[k] in m;
        }
      }
    }
  }

  lemma LeftMergeRectangular(on: On, left: Table, right: Table)
    requires Rectangular(left) && Rectangular(right)
    ensures Rectangular(LeftMerge(on, left, right))
  {
    JoinRowsWidth(on, left.rows, right, |left.cols|);
  }

  // ---------------------------------------------------------------------
  // reduce(merge, [acc] + rest)
  // ---------------------------------------------------------------------

  /** The left-to-right fold of left merges, starting from `acc`. */
  function MergeFold(on: On, acc: Table, rest: seq<Table>): Table
    decreases |rest|
  {
    if rest == [] then acc
    else LeftMerge(on, MergeFold(on, acc, rest[..|rest| - 1]), rest[|rest| - 1])
  }

  /** `reduce` over `a + b` is `reduce` over `b` starting from the result
      over `a`. */
  lemma {:induction false} MergeFoldSplit(on: On, acc: Table, a: seq<Table>, b: seq<Table>)
    ensures MergeFold(on, acc, a + b) == MergeFold(on, MergeFold(on, acc, a), b)
    decreases |b|
  {
    if b == [] {
      assert a + b == a;
    } else {
      assert (a + b)[..|a + b| - 1] == a + b[..|b| - 1];
      MergeFoldSplit(on, acc, a, b[..|b| - 1]);
    }
  }

  /** A left merge never loses a left row, whatever the right frames hold. */
  lemma {:induction false} MergeFoldKeepsAll(on: On, acc: Table, rest: seq<Table>)
    ensures |MergeFold(on, acc, rest).rows| >= |acc.rows|
  {
    if rest != [] {
      MergeFoldKeepsAll(on, acc, rest[..|rest| - 1]);
      JoinRowsKeepAll(on, MergeFold(on, acc, rest[..|rest| - 1]).rows, rest[|rest| - 1]);
    }
  }

  /** The labels of the frames, one after the other. */
  function AllCols(ts: seq<Table>): seq<string>
    decreases |ts|
  {
    if ts == [] then [] else AllCols(ts[..|ts| - 1]) + ts[|ts| - 1].cols
  }

  /** When no label occurs twice, the fold's labels are the frames' labels
      one after the other: pandas adds no suffix. */
  lemma {:induction false} MergeFoldLabels(on: On, acc: Table, rest: seq<Table>)
    requires Distinct(acc.cols + AllCols(rest))
    ensures MergeFold(on, acc, rest).cols == acc.cols + AllCols(rest)
  {
    if rest != [] {
      var init := rest[..|rest| - 1];
      var last := rest[|rest| - 1];
      var pre := acc.cols + AllCols(init);
      assert acc.cols + AllCols(rest) == pre + last.cols;
      assert Distinct(pre) by {
        forall i, j | 0 <= i < j < |pre| ensures pre[i] != pre[j] {
          assert pre[i] == (pre + last.cols)[i] && pre[j] == (pre + last.cols)[j];
        }
      }
      MergeFoldLabels(on, acc, init);
      forall i, j | 0 <= i < |pre| && 0 <= j < |last.cols| ensures pre[i] != last.cols[j] {
        assert (pre + last.cols)[i] == pre[i] && (pre + last.cols)[|pre| + j] == last.cols[j];
      }
      MergeLabelsDisjoint(pre, last.cols);
    }
  }

  /** When only the first merge meets shared labels, the fold's labels are
      those of the first merge, then the other frames' labels unchanged. */
  lemma FoldLabelsAfterFirst(on: On, acc: Table, rest: seq<Table>)
    requires rest != []
    requires Distinct(MergeLabels(acc.cols, rest[0].cols) + AllCols(rest[1..]))
    ensures MergeFold(on, acc, rest).cols == MergeLabels(acc.cols, rest[0].cols) + AllCols(rest[1..])
  {
    var first := MergeFold(on, acc, [rest[0]]);
    assert rest == [rest[0]] + rest[1..];
    MergeFoldSplit(on, acc, [rest[0]], rest[1..]);
    assert first.cols == MergeLabels(acc.cols, rest[0].cols) by {
      assert [rest[0]][..0] == [];
    }
    MergeFoldLabels(on, first, rest[1..]);
  }

  /** What a fold of left merges followed by `fillna(0)` promises about its
      shape: no row of the first frame is lost, the rows are exactly those of
      the first frame when the others have unique ids, every row has one cell
      per label, and without shared labels the labels are those of the frames
      one after the other. */
  lemma FilledFoldShape(on: On, acc: Table, rest: seq<Table>)
    ensures var r := FillNa(MergeFold(on, acc, rest));
      && |r.rows| >= |acc.rows|
      && (AllUnique(rest) ==> SameKeys(r, acc))
      && (Rectangular(acc) && AllRectangular(rest) ==> Rectangular(r) && |r.cols| == |acc.cols| + Width(rest))
      && (Distinct(acc.cols + AllCols(rest)) ==> r.cols == acc.cols + AllCols(rest))
  {
    MergeFoldKeepsAll(on, acc, rest);
    if AllUnique(rest) {
      MergeFoldRows(on, acc, rest);
    }
    if Rectangular(acc) && AllRectangular(rest) {
      MergeFoldShape(on, acc, rest);
    }
    if Distinct(acc.cols + AllCols(rest)) {
      MergeFoldLabels(on, acc, rest);
    }
  }

  /** The cells a key picks up from each of the frames, one after the other. */
  function Segments(k: Key, ts: seq<Table>): seq<Cell>
    decreases |ts|
  {
    if ts == [] then [] else Segments(k, ts[..|ts| - 1]) + Lookup(k, ts[|ts| - 1])
  }

  /** Total number of count columns of the frames. */
  function Width(ts: seq<Table>): nat
    decreases |ts|
  {
    if ts == [] then 0 else Width(ts[..|ts| - 1]) + |ts[|ts| - 1].cols|
  }

  /** The fold keeps exactly the rows of its first frame, in their order,
      and extends each with what its key picks up from the other frames. */
  lemma MergeFoldRows(on: On, acc: Table, rest: seq<Table>)
    requires AllUnique(rest)
    ensures var r := MergeFold(on, acc, rest);
      && |r.rows| == |acc.rows|
      && forall i | 0 <= i < |acc.rows| ::
           r.rows[i] == Row(acc.rows[i].id, acc.rows[i].name, acc.rows[i].cells + Segments(KeyOf(on, acc.rows[i]), rest))
  {
    MergeFoldCount(on, acc, rest);
    forall i | 0 <= i < |acc.rows|
      ensures MergeFold(on, acc, rest).rows[i]
           == Row(acc.rows[i].id, acc.rows[i].name, acc.rows[i].cells + Segments(KeyOf(on, acc.rows[i]), rest))
    {
      MergeFoldRow(on, acc, rest, i);
    }
  }

  lemma {:induction false} MergeFoldCount(on: On, acc: Table, rest: seq<Table>)
    requires AllUnique(rest)
    ensures |MergeFold(on, acc, rest).rows| == |acc.rows|
  {
    if rest != [] {
      var init := rest[..|rest| - 1];
      assert AllUnique(init) && UniqueIds(rest[|rest| - 1]);
      MergeFoldCount(on, acc, init);
      LeftMergeRows(on, MergeFold(on, acc, init), rest[|rest| - 1]);
    }
  }

  lemma {:induction false} MergeFoldRow(on: On, acc: Table, rest: seq<Table>, i: nat)
    requires AllUnique(rest) && i < |acc.rows|
    ensures var r := MergeFold(on, acc, rest);
      && i < |r.rows|
      && r.rows[i] == Row(acc.rows[i].id, acc.rows[i].name, acc.rows[i].cells + Segments(KeyOf(on, acc.rows[i]), rest))
  {
    MergeFoldCount(on, acc, rest);
    if rest != [] {
      var init := rest[..|rest| - 1];
      var last := rest[|rest| - 1];
      var mid := MergeFold(on, acc, init);
      assert AllUnique(init) && UniqueIds(last);
      MergeFoldCount(on, acc, init);
      MergeFoldRow(on, acc, init, i);
      LeftMergeRow(on, mid, last, i);
      RowStep(on, acc.rows[i], mid.rows[i], MergeFold(on, acc, rest).rows[i], rest);
    }
  }

  /** One fold step, for one row: a row that picked up the cells of the
      first frames picks up those of the next one after them. */
  lemma RowStep(on: On, a: Row, m: Row, r: Row, rest: seq<Table>)
    requires rest != []
    requires m == Row(a.id, a.name, a.cells + Segments(KeyOf(on, a), rest[..|rest| - 1]))
    requires r == Row(m.id, m.name, m.cells + Lookup(KeyOf(on, m), rest[|rest| - 1]))
    ensures r == Row(a.id, a.name, a.cells + Segments(KeyOf(on, a), rest))
  {
    var key := KeyOf(on, a);
    var init := rest[..|rest| - 1];
    var last := rest[|rest| - 1];
    assert KeyOf(on, m) == key;
    assert Segments(key, rest) == Segments(key, init) + Lookup(key, last);
    Concat3(a.cells, Segments(key, init), Lookup(key, last));
  }

  lemma {:induction false} MergeFoldShape(on: On, acc: Table, rest: seq<Table>)
    requires Rectangular(acc) && AllRectangular(rest)
    ensures Rectangular(MergeFold(on, acc, rest))
    ensures |MergeFold(on, acc, rest).cols| == |acc.cols| + Width(rest)
  {
    if rest != [] {
      var init := rest[..|rest| - 1];
      MergeFoldShape(on, acc, init);
      LeftMergeRectangular(on, MergeFold(on, acc, init), rest[|rest| - 1]);
    }
  }

  lemma {:induction false} WidthPrefix(ts: seq<Table>, n: nat)
    requires n < |ts|
    ensures Width(ts[..n + 1]) == Width(ts[..n]) + |ts[n].cols|
    ensures Width(ts[..n + 1]) <= Width(ts)
  {
    assert ts[..n + 1][..n] == ts[..n];
    if n + 1 < |ts| {
      WidthPrefix(ts[..|ts| - 1], n);
      assert ts[..|ts| - 1][..n + 1] == ts[..n + 1];
    } else {
      assert ts[..n + 1] == ts;
    }
  }

  /** What a key picks up from two runs of frames is what it picks up from
      each, one after the other. */
  lemma {:induction false} SegmentsAppend(k: Key, a: seq<Table>, b: seq<Table>)
    ensures Segments(k, a + b) == Segments(k, a) + Segments(k, b)
  {
    if b == [] {
      assert a + b == a;
    } else {
      var init := b[..|b| - 1];
      var last := b[|b| - 1];
      assert (a + b)[..|a + b| - 1] == a + init;
      assert (a + b)[|a + b| - 1] == last;
      SegmentsAppend(k, a, init);
      Concat3(Segments(k, a), Segments(k, init), Lookup(k, last));
    }
  }

  lemma Concat3<T>(x: seq<T>, y: seq<T>, z: seq<T>)
    ensures (x + y) + z == x + (y + z)
  {
  }

  /** Column `c` of frame `n` sits at offset `Width(ts[..n]) + c` of the
      picked-up cells. */
  lemma SegmentsAt(k: Key, ts: seq<Table>, n: nat, c: nat)
    requires AllRectangular(ts) && n < |ts| && c < |ts[n].cols|
    ensures |Segments(k, ts)| == Width(ts)
    ensures Width(ts[..n]) + c < Width(ts)
    ensures Segments(k, ts)[Width(ts[..n]) + c] == Lookup(k, ts[n])[c]
  {
    var pre := ts[..n];
    var post := ts[n + 1..];
    assert ts == pre + [ts[n]] + post;
    assert [ts[n]][..0] == [];
    SegmentsAppend(k, pre + [ts[n]], post);
    SegmentsAppend(k, pre, [ts[n]]);
    assert AllRectangular(pre);
    SegmentsWidth(k, pre);
    SegmentsWidth(k, ts);
    LookupWidth(k, ts[n]);
    WidthPrefix(ts, n);
  }

  lemma {:induction false} SegmentsWidth(k: Key, ts: seq<Table>)
    requires AllRectangular(ts)
    ensures |Segments(k, ts)| == Width(ts)
  {
    if ts != [] {
      SegmentsWidth(k, ts[..|ts| - 1]);
      LookupWidth(k, ts[|ts| - 1]);
    }
  }

  /** Column `c` of frame `n` of the rest sits at offset
      `|acc.cols| + Width(rest[..n]) + c` of every row of the fold. */
  lemma FoldCellAt(on: On, acc: Table, rest: seq<Table>, i: nat, n: nat, c: nat)
    requires Rectangular(acc) && AllRectangular(rest) && AllUnique(rest)
    requires i < |acc.rows| && n < |rest| && c < |rest[n].cols|
    ensures var m := MergeFold(on, acc, rest); var at := |acc.cols| + Width(rest[..n]) + c;
      && |m.rows| == |acc.rows|
      && at < |m.rows[i].cells|
      && m.rows[i].cells[at] == Lookup(KeyOf(on, acc.rows[i]), rest[n])[c]
  {
    MergeFoldCount(on, acc, rest);
    MergeFoldRow(on, acc, rest, i);
    var a := acc.rows[i];
    var row := MergeFold(on, acc, rest).rows[i];
    assert row.cells == a.cells + Segments(KeyOf(on, a), rest);
    assert |a.cells| == |acc.cols| by {
      assert a in acc.rows;
    }
    PickedCell(a, KeyOf(on, a), rest, n, c, row);
  }

  /** Column `c` of frame `n` in a row extended with what its key picks up. */
  lemma PickedCell(a: Row, key: Key, rest: seq<Table>, n: nat, c: nat, row: Row)
    requires AllRectangular(rest) && n < |rest| && c < |rest[n].cols|
    requires row.cells == a.cells + Segments(key, rest)
    ensures var at := |a.cells| + Width(rest[..n]) + c;
      at < |row.cells| && row.cells[at] == Lookup(key, rest[n])[c]
  {
    SegmentCell(key, rest, n, c);
    CellFromRow(row, a, Segments(key, rest), Lookup(key, rest[n]), |a.cells|, Width(rest[..n]), c);
  }

  /** Cell `c` of frame `n` sits at offset `Width(rest[..n]) + c` of the
      picked-up cells. */
  lemma SegmentCell(key: Key, rest: seq<Table>, n: nat, c: nat)
    requires AllRectangular(rest) && n < |rest| && c < |rest[n].cols|
    ensures var segs := Segments(key, rest); var look := Lookup(key, rest[n]);
      Width(rest[..n]) + c < |segs| && c < |look| && segs[Width(rest[..n]) + c] == look[c]
  {
    SegmentsAt(key, rest, n, c);
    LookupWidth(key, rest[n]);
  }

  /** A cell of the picked-up part of a row, seen from the whole row. */
  lemma CellFromRow(r: Row, a: Row, segs: seq<Cell>, look: seq<Cell>, base: nat, w: nat, c: nat)
    requires r.cells == a.cells + segs && base == |a.cells|
    requires w + c < |segs| && c < |look| && segs[w + c] == look[c]
    ensures base + w + c < |r.cells| && r.cells[base + w + c] == look[c]
  {
  }

  /** The zero-fill promise of a fold of left merges followed by `fillna(0)`:
      the rows are those of the first frame, in order; for frame `n` of the
      rest and its column `c`, a row whose key matches row `j` of that frame
      carries that row's cell, and a row whose key is absent from that frame
      carries 0. */
  lemma ZeroFilledFold(on: On, acc: Table, rest: seq<Table>, i: nat, n: nat, c: nat)
    requires Rectangular(acc) && AllRectangular(rest) && AllUnique(rest)
    requires i < |acc.rows| && n < |rest| && c < |rest[n].cols|
    ensures var r := FillNa(MergeFold(on, acc, rest)); var key := KeyOf(on, acc.rows[i]);
      var at := |acc.cols| + Width(rest[..n]) + c;
      && |r.rows| == |acc.rows|
      && at < |r.rows[i].cells|
      && (forall j | 0 <= j < |rest[n].rows| && Matches(key, rest[n].rows[j]) ::
            r.rows[i].cells[at] == Fill(rest[n].rows[j].cells[c]))
      && ((forall j | 0 <= j < |rest[n].rows| :: !Matches(key, rest[n].rows[j])) ==> r.rows[i].cells[at] == Num(0))
  {
    FoldCellAt(on, acc, rest, i, n, c);
    LookupSpec(KeyOf(on, acc.rows[i]), rest[n]);
  }

  /** The first frame's own cells lead each row of the filled fold. */
  lemma ZeroFilledFoldLeads(on: On, acc: Table, rest: seq<Table>, i: nat, c: nat)
    requires AllUnique(rest) && Rectangular(acc)
    requires i < |acc.rows| && c < |acc.cols|
    ensures var r := FillNa(MergeFold(on, acc, rest));
      && |r.rows| == |acc.rows|
      && r.rows[i].id == acc.rows[i].id && r.rows[i].name == acc.rows[i].name
      && c < |r.rows[i].cells| && r.rows[i].cells[c] == Fill(acc.rows[i].cells[c])
  {
    MergeFoldRows(on, acc, rest);
    assert acc.rows[i] in acc.rows;
  }
}
