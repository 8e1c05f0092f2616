# TEATER impact report: the aggregation pipeline

The TEATER impact job counts, per college, yesterday's activity in six
modules (Teach, Engage, Assess, Track, Analyse, Remediate). It then
combines the six per-module frames into two reports:

- a **detail** sheet: every module frame merged left, on
  `(college_id, college_name)`, onto the Teach frame, zero-filled, with a
  serial number `S.No` in front;
- a **summary** sheet: one row per Teach college with its six module
  totals and their sum `total`, sorted by `total` descending, numbered
  1..N, and closed by an "Overall Total" row of column sums.

This project models that pipeline in Dafny and proves what it promises.

- A pandas frame is a value: `Frames.Table(cols, rows)`. Each row holds
  its key (`college_id`, `college_name`) and one cell per count column.
  A cell is a `nat` count or `NaN`, the missing value a left merge leaves.
- `fillna(0)`, `drop(columns=[...])`, a left `merge` and the `reduce`
  fold of merges are functions in `frames.dfy`. The merge is modelled in
  general: a repeated key on the right multiplies left rows, and labels
  both sides share get pandas' `_x`/`_y` suffixes.
- The extractor tails (`extractors.dfy`) merge each module's query frames
  and zero-fill them. Analyse adds a constant `swoc_count = 0`.
- `detail.dfy` builds the detail sheet; `summary.dfy` builds the summary
  sheet. The category loop and the total-row loop are methods with loop
  invariants. The category loop works on an `array` of frames that it
  updates in place, as the source does.
- `reports.dfy` is `generate_reports`: the six module frames in a `dfs`
  array, the in-place removal of `name` columns, then both reports.
- `scenario.dfy` works one two-college run of the summary through to its
  exact output.

The SQL queries are inputs (`Reports.Queries`). Reading them from MySQL
is outside the model.

Three things the code does not do, and the model does not either:

- The detail sheet gets no per-row usage-sum column. The code only
  inserts `S.No`.
- The summary sort is `sort_values` with its default, non-stable
  algorithm. The model claims only a permutation with non-increasing
  `total`. It does not claim that ties keep their order.
- The code checks nothing about its input frames and raises no error of
  its own. An empty Teach frame gives a summary holding only the total
  row, and the model keeps that.

## Model

| member | source | states |
|---|---|---|
| `Frames.FillNa` | teater_impact_of_students.py:476 | `fillna(0)` keeps every row, key and present count, turns each missing cell into 0, and leaves no missing cell |
| `Frames.FillNaNoMissing` | teater_impact_of_students.py:476 | zero-filling a frame with no missing cell leaves it unchanged |
| `Frames.RowSumZero` | teater_impact_of_students.py:496 | a row sum is 0 exactly when every cell is 0 or missing |
| `Frames.DropColumn` | teater_impact_of_students.py:467-469 | dropping `name` removes exactly the `name` labels; every other label stays, every row stays with its key, and a frame without `name` is unchanged |
| `Frames.DropColumnKeeps` | teater_impact_of_students.py:467-469 | every column other than `name` survives the drop with its label and cells, shifted left by the dropped columns before it |
| `Frames.FirstMatch` | teater_impact_of_students.py:472-475 | the index the merge looks a key up at is the first right row with that key; none means no right row has it |
| `Frames.LookupSpec` | teater_impact_of_students.py:472-475 | with unique right ids, a present key picks up its row's cells and an absent key picks up missing cells only |
| `Frames.LeftMergeRows` | teater_impact_of_students.py:472-475 | with unique right ids, a left merge keeps exactly the left rows, in order, each extended by what its key picks up |
| `Frames.JoinRowsKeepAll` | teater_impact_of_students.py:472-475 | a left merge never loses a left row, whatever the right frame holds |
| `Frames.MergeLabelsDisjoint` | teater_impact_of_students.py:472-475 | when no label is shared, merge labels are the left labels followed by the right labels, unsuffixed |
| `Frames.MergeFoldSplit` | teater_impact_of_students.py:472-475 | the `reduce` over `a + b` is the `reduce` over `b` started from the result over `a` |
| `Frames.MergeFoldKeepsAll` | teater_impact_of_students.py:472-475 | the fold keeps at least the rows of the first frame |
| `Frames.MergeFoldRows` | teater_impact_of_students.py:472-475 | with unique ids in the other frames, the fold has exactly the first frame's rows, in order, each extended by what its key picks up from each frame in turn |
| `Frames.MergeFoldLabels` | teater_impact_of_students.py:472-475 | without shared labels, the fold's labels are the frames' labels one after the other |
| `Frames.FoldLabelsAfterFirst` | teater_impact_of_students.py:472-475 | when only the first merge meets shared labels, the fold's labels are that merge's labels followed by the other frames' labels |
| `Frames.FilledFoldShape` | teater_impact_of_students.py:472-476 | the zero-filled fold keeps the first frame's rows and keys (given unique ids), stays rectangular and has the combined labels |
| `Frames.ZeroFilledFold` | teater_impact_of_students.py:472-476 | after the fold and `fillna(0)`, a row carries each frame's cell for its key, and 0 in every column of a frame that lacks its key |
| `Frames.ZeroFilledFoldLeads` | teater_impact_of_students.py:472-476 | the first frame's own cells lead each row of the zero-filled fold |
| `Extractors.Merged` | teater_impact_of_students.py:255-263 | the shared extractor tail (merge left on the key, then `fillna(0)`) leaves no missing cell and keeps the first query's rows and keys |
| `Extractors.MergedZeroFill` | teater_impact_of_students.py:255-263 | after an extractor's merges and `fillna(0)` (also lines 324-328 and 389-393), each query's column holds that query's count for the college, or 0 when the query has no row for it |
| `Extractors.Engage` | teater_impact_of_students.py:255-263 | the seven engagement frames merge into one frame with the first frame's rows, no missing cell and the seven engagement labels |
| `Extractors.Assess` | teater_impact_of_students.py:324-328 | the objective, subjective and coding frames merge into one frame with the first frame's rows, no missing cell and the three assessment labels |
| `Extractors.Track` | teater_impact_of_students.py:389-393 | the three feedback frames merge into one frame with the first frame's rows, no missing cell and the three feedback labels |
| `Extractors.Analyse` | teater_impact_of_students.py:411 | the roster gains a `swoc_count` column that is 0 in every row, so no row sum changes |
| `Extractors.LabelledFold` | teater_impact_of_students.py:255-263 | frames that each carry one of a list of distinct labels merge into a frame with exactly that list of labels |
| `Detail.DetailRows` | teater_impact_of_students.py:472-477 | the detail sheet has exactly the Teach rows, in order and with their keys, numbered `S.No` 1..N, and no cell is missing |
| `Detail.DetailKeepsRoster` | teater_impact_of_students.py:472-475 | whatever the frames hold, the detail sheet has at least the Teach rows |
| `Detail.DetailColumns` | teater_impact_of_students.py:472-476 | without shared labels, the detail columns are the module frames' columns one after the other |
| `Detail.DetailLeads` | teater_impact_of_students.py:472-476 | each detail row starts with its Teach cells, zero-filled |
| `Detail.DetailZeroFill` | teater_impact_of_students.py:472-476 | a module column in a detail row holds that module's cell for the college, or 0 when the module frame lacks the college |
| `Summary.CategoryOfSpec` | teater_impact_of_students.py:494-498 | a college's category total is the sum of its row's count cells, 0 when the frame has no count column, and 0 when the frame lacks the college |
| `Summary.LookupCategory` | teater_impact_of_students.py:493-499 | the category column merged on `college_id` gives each college its category total |
| `Summary.TalliesFollowRoster` | teater_impact_of_students.py:491-502 | before sorting, the summary has one row per Teach college, in order, holding its six category totals from the frames and their sum |
| `Summary.TallyRow` | teater_impact_of_students.py:491-502 | row `i` of the merged, zero-filled summary frame holds what each category frame gives the `i`-th Teach college |
| `Summary.Insert` | teater_impact_of_students.py:503 | inserting a row adds exactly that row and keeps `total` non-increasing |
| `Summary.SortByTotal` | teater_impact_of_students.py:503 | the sort gives a permutation of its input with `total` non-increasing |
| `Summary.SortFacts` | teater_impact_of_students.py:503 | the sort keeps the row count, and each sorted row is one of the input rows |
| `Summary.SummaryOfExpected` | teater_impact_of_students.py:491-520 | the summary is the reference tallies of the Teach roster, sorted, numbered and closed by their total row |
| `Summary.SummaryShape` | teater_impact_of_students.py:504-520 | the summary has N+1 rows, `S.No` 1..N, then the row labelled `Total`, `-`, `Overall Total` whose seven cells are the column sums of the N rows above |
| `Summary.SummaryRanked` | teater_impact_of_students.py:503-504 | the real rows are a permutation of the Teach colleges' tallies with `total` non-increasing, numbered 1..N |
| `Summary.SummaryRowsAdd` | teater_impact_of_students.py:502 | every real row belongs to a Teach college, holds that college's six category totals (0 where a frame lacks it), and `total` is their sum |
| `Summary.FieldSumPerm` | teater_impact_of_students.py:517-518 | column sums do not depend on row order |
| `Summary.FieldSumTotal` | teater_impact_of_students.py:502 | when each row's `total` is the sum of its categories, the `total` column sum is the sum of the six category column sums |
| `Summary.TotalRowSums` | teater_impact_of_students.py:512-518 | the total row holds each numeric column's sum, and its `total` is the sum of its six category cells |
| `Summary.SummaryConserves` | teater_impact_of_students.py:502-518 | conservation: the total row holds, per category, the sum over the Teach colleges of that category's totals, and its `total` is the sum of those six |
| `Summary.BuildTotalRow` | teater_impact_of_students.py:512-518 | the loop builds the sentinel-labelled row of column sums |
| `Summary.MergeCategories` | teater_impact_of_students.py:493-499 | the category loop gives the fold of category-column merges onto the roster and leaves each frame with its category column appended |
| `Summary.BuildSummary` | teater_impact_of_students.py:491-520 | the method builds exactly the summary sheet and leaves the frames tagged with their category columns |
| `Reports.Modules` | teater_impact_of_students.py:456-461 | the six module frames, in `dfs` order, all arrive with no missing cell; well-formed query frames give well-formed module frames; query frames without repeated college ids give module frames without them, the Teach one holding the Teach query's rows and keys |
| `Reports.DropNameColumns` | teater_impact_of_students.py:467-469 | the loop drops `name` from each frame in place and changes nothing else |
| `Reports.ReportsFrom` | teater_impact_of_students.py:466-520 | the detail and summary sheets are built from the frames after the `name` drop |
| `Reports.GenerateReports` | teater_impact_of_students.py:456-520 | `generate_reports` yields the detail and summary of the prepared module frames |
| `Reports.ReportsFollowTeach` | teater_impact_of_students.py:472-520 | given unique ids, the detail sheet has one row per Teach row with its keys and `S.No` 1..N, and the summary has one row per Teach row plus the total row |
| `Reports.FirstMergeLabels` | teater_impact_of_students.py:472-475 | Teach and the first Engage frame both carry `total_attendance`, so the first merge renames them `total_attendance_x` and `total_attendance_y` |
| `Reports.DetailLabels` | teater_impact_of_students.py:472-477 | with the queries' labels, the detail columns are exactly `DetailColumns` |
| `Reports.NoNameColumn` | teater_impact_of_students.py:467-469 | no module frame labelled as the queries label them has a `name` column, so the drop changes nothing |
| `Reports.ReportLabels` | teater_impact_of_students.py:456-477 | with the queries' own labels, the detail sheet has exactly the columns `DetailColumns` |
| `Scenario.TwoColleges` | teater_impact_of_students.py:491-520 | a two-college run: college 1 (5 attendance, 2 notifications) ranks first with total 7, college 2 is zero-filled to 0, and the total row is 5, 2, 0, 0, 0, 0, 7 |

## Left out

- The SQL text and its 24-hour window. Each query result is an input frame.
- Engine creation, the connection check and `execute_query`. These are I/O against MySQL.
- Excel writing, the HTML template, MIME assembly and the SMTP send. These are rendering and network I/O.
- The date labels built from `datetime.now()`. They read the wall clock.
- The commented-out Slack notifier, and the exception wrapper and status dict of `teater_generation`.
- The progress prints and their `:.0f` formatting. They are console output.
- pandas dtypes: a left merge that leaves a missing value turns that count column into float64, and `fillna(0)` keeps it float. The detail sheet (line 476) is never cast back; only the summary's seven numeric columns are cast with `astype(int)` (lines 508-509). Counts are `nat` here, so the float columns and the cast are not modelled.
- Integer width: pandas stores counts as int64 or float64. Overflow, and the loss of precision in float64 above 2^53, are not modelled; counts are unbounded.
- Summary.SortByTotal: the order of rows with equal `total` need not be the one pandas' non-stable sort picks (the model keeps tied rows in input order). No lemma about the summary depends on that order.
- Every non-key column is taken to be numeric, so `select_dtypes(include="number")` minus `college_id` is every count column. None of the queries returns a text column other than the key.
