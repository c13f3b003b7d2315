/**
 * visualize_results.py: read the forecasting results back, add the error column, pick the
 * sectors with the largest actual traffic for the detail plots, and reload the raw history.
 * The history loader scans for the header and cleans the columns like the other two scripts,
 * but it has no explicit filter for a repeated header row and it does not sort. The figures
 * themselves are not part of this model.
 */
module VisualizeResults {
  import opened Wrappers
  import opened Text
  import opened Calendar
  import opened FrenchDate
  import opened Header
  import opened Frame
  import opened Sorting
  import opened Cleaning
  import opened ForecastTraffic

  /** The columns `load_raw_data` touches, in the order it touches them. */
  const RawColumns: seq<string> := ["tstamp", "trafic_mbps", "secteur"]

  // ---------------------------------------------------------------------------
  // load_raw_data
  // ---------------------------------------------------------------------------

  /**
   * What `load_raw_data` makes of one row, given the positions of `tstamp`, `trafic_mbps` and
   * `secteur`: it is kept exactly when its date parses, its traffic is a number and its
   * sector is present.
   */
  function RawRow(row: Row, t: nat, f: nat, s: nat, num: string -> Option<real>): (r: Option<Observation>)
    ensures r.Some? <==> FrenchCellDay(CellAt(row, t)).Some? && CellAt(row, f).Some?
                         && num(CellAt(row, f).value).Some? && CellAt(row, s).Some?
    ensures r.Some? ==> Some(r.value.sector) == CellAt(row, s)
                        && Some(r.value.date) == FrenchCellDay(CellAt(row, t))
                        && MinDay <= r.value.date <= MaxDay
                        && Some(r.value.traffic) == num(CellAt(row, f).value)
  {
    match FrenchCellDay(CellAt(row, t))
    case None => None
    case Some(day) =>
      match CellAt(row, f)
      case None => None
      case Some(text) =>
        match num(text)
        case None => None
        case Some(v) =>
          match CellAt(row, s)
          case None => None
          case Some(sector) => Some(Observation(sector, day, v))
  }

  function RawRowFn(cols: seq<nat>, num: string -> Option<real>): Row -> Option<Observation>
    requires |cols| == 3
  {
    (row: Row) => RawRow(row, cols[0], cols[1], cols[2], num)
  }

  /** The row steps of `load_raw_data` (lines 28-30), composed into one step. */
  function RawSteps(t: nat, f: nat, s: nat, num: string -> Option<real>): Row -> Option<Observation> {
    Then(Then(Then(Then(
      Stage(),
      AddDate(t, FrenchCellDay)),
      ToNumeric(f, num)),
      DropMissing(true, [s], true)),
      ToObservation(s))
  }

  lemma RawStepsChain(rows: seq<Row>, t: nat, f: nat, s: nat, num: string -> Option<real>)
    ensures
      Choose(Choose(Choose(Choose(Choose(rows,
        Stage()),
        AddDate(t, FrenchCellDay)),
        ToNumeric(f, num)),
        DropMissing(true, [s], true)),
        ToObservation(s))
      == Choose(rows, RawSteps(t, f, s, num))
  {
    var f1 := Then(Stage(), AddDate(t, FrenchCellDay));
    var f2 := Then(f1, ToNumeric(f, num));
    var f3 := Then(f2, DropMissing(true, [s], true));
    ChooseThen(rows, Stage(), AddDate(t, FrenchCellDay));
    ChooseThen(rows, f1, ToNumeric(f, num));
    ChooseThen(rows, f2, DropMissing(true, [s], true));
    ChooseThen(rows, f3, ToObservation(s));
  }

  lemma RawStepsRow(row: Row, t: nat, f: nat, s: nat, num: string -> Option<real>)
    ensures RawSteps(t, f, s, num)(row) == RawRow(row, t, f, s, num)
  {
    var f1 := Then(Stage(), AddDate(t, FrenchCellDay));
    var f2 := Then(f1, ToNumeric(f, num));
    var f3 := Then(f2, DropMissing(true, [s], true));
    var x := Staged(row, FrenchCellDay(CellAt(row, t)), None);
    assert f1(row) == Some(x);
    var y := x.(traffic := match CellAt(row, f) case None => None case Some(text) => num(text));
    assert f2(row) == Some(y);
    assert AllPresent(row, [s]) <==> CellAt(row, s).Some? by {
      assert [s][1..] == [];
    }
  }

  /** The row steps of `load_raw_data`, run one after another, are `RawRow` on every row. */
  lemma RawStepsAreRawRow(rows: seq<Row>, cols: seq<nat>, num: string -> Option<real>)
    requires |cols| == 3
    ensures
      Choose(Choose(Choose(Choose(Choose(rows,
        Stage()),
        AddDate(cols[0], FrenchCellDay)),
        ToNumeric(cols[1], num)),
        DropMissing(true, [cols[2]], true)),
        ToObservation(cols[2]))
      == Choose(rows, RawRowFn(cols, num))
  {
    var t, f, s := cols[0], cols[1], cols[2];
    RawStepsChain(rows, t, f, s, num);
    forall i | 0 <= i < |rows| ensures RawSteps(t, f, s, num)(rows[i]) == RawRowFn(cols, num)(rows[i]) {
      RawStepsRow(rows[i], t, f, s, num);
    }
    ChooseCongruent(rows, RawSteps(t, f, s, num), RawRowFn(cols, num));
  }

  /**
   * `load_raw_data`: skip the preamble, read the table, drop the empty columns, strip the
   * column names, then derive and filter the rows, keeping file order. A missing column raises
   * `KeyError`.
   */
  function RawLoaded(lines: seq<string>, readCsv: nat -> Table, num: string -> Option<real>): Result<seq<Observation>> {
    var t := Clean(readCsv(HeaderIndex(lines)));
    match Resolve(t.columns, RawColumns)
    case Failure(e) => Failure(e)
    case Success(cols) => Success(Choose(t.rows, RawRowFn(cols, num)))
  }

  /** The statements of `load_raw_data`, run one after another. */
  method LoadRawData(lines: seq<string>, readCsv: nat -> Table, num: string -> Option<real>)
    returns (r: Result<seq<Observation>>)
    ensures r == RawLoaded(lines, readCsv, num)
  {
    var header := FindHeader(lines);
    var table := readCsv(header);
    table := DropEmptyColumns(table);
    table := StripColumnNames(table);
    var cols := Resolve(table.columns, RawColumns);
    if cols.Failure? {
      return Failure(cols.error);
    }
    var t, f, s := cols.value[0], cols.value[1], cols.value[2];
    var staged := Choose(table.rows, Stage());
    staged := Choose(staged, AddDate(t, FrenchCellDay));
    staged := Choose(staged, ToNumeric(f, num));
    staged := Choose(staged, DropMissing(true, [s], true));
    var loaded := Choose(staged, ToObservation(s));
    RawStepsAreRawRow(table.rows, cols.value, num);
    r := Success(loaded);
  }

  /**
   * `load_raw_data` fails exactly when one of its three columns is missing after the clean-up,
   * with the `KeyError` of the first missing one in the order `tstamp`, `trafic_mbps`,
   * `secteur`; an export without data rows fails on `tstamp`.
   */
  lemma RawLoadedSpec(lines: seq<string>, readCsv: nat -> Table, num: string -> Option<real>)
    ensures var t := Clean(readCsv(HeaderIndex(lines)));
            var r := RawLoaded(lines, readCsv, num);
            (r.Success? <==> forall k :: 0 <= k < |RawColumns| ==> RawColumns[k] in t.columns)
            && (r.Failure? ==> exists k :: 0 <= k < |RawColumns| && RawColumns[k] !in t.columns
                                 && r.error == "KeyError: " + RawColumns[k]
                                 && forall l :: 0 <= l < k ==> RawColumns[l] in t.columns)
    ensures |readCsv(HeaderIndex(lines)).rows| == 0 ==> RawLoaded(lines, readCsv, num) == Failure("KeyError: tstamp")
  {
    var t := Clean(readCsv(HeaderIndex(lines)));
    if |readCsv(HeaderIndex(lines)).rows| == 0 {
      assert t.columns == [];
      assert RawColumns[0] !in t.columns;
    }
  }

  /**
   * On success the loaded rows are exactly the images of the table rows `RawRow` keeps, never
   * more than the table has, each with an in-range day.
   */
  lemma RawLoadedRows(rows: seq<Row>, cols: seq<nat>, num: string -> Option<real>, o: Observation)
    requires |cols| == 3
    ensures |Choose(rows, RawRowFn(cols, num))| <= |rows|
    ensures o in Choose(rows, RawRowFn(cols, num)) <==>
              exists i :: 0 <= i < |rows| && RawRow(rows[i], cols[0], cols[1], cols[2], num) == Some(o)
    ensures o in Choose(rows, RawRowFn(cols, num)) ==> MinDay <= o.date <= MaxDay
  {
    ChooseMembers(rows, RawRowFn(cols, num), o);
  }

  /**
   * A repeated header row is dropped although the loader never tests for one: its `tstamp`
   * cell is the single word `tstamp`, which gives no date.
   */
  lemma RepeatedHeaderDropped(row: Row, t: nat, f: nat, s: nat, num: string -> Option<real>)
    requires CellAt(row, t) == Some("tstamp")
    ensures RawRow(row, t, f, s, num).None?
  {
    var text := "tstamp";
    assert NoSpace(text);
    assert JoinWords([text]) == text;
    SplitJoinOne(text);
    assert |Split(CellText(CellAt(row, t)))| == 1;
  }

  /**
   * This loader and the forecasting one keep the same rows with the same values, except that
   * only the forecasting one drops a row whose sector is literally `secteur`.
   */
  lemma RawRowAgainstForecast(row: Row, t: nat, f: nat, s: nat, num: string -> Option<real>)
    ensures CellAt(row, s) != Some("secteur") ==> RawRow(row, t, f, s, num) == LoadRow(row, s, t, f, num)
    ensures CellAt(row, s) == Some("secteur") ==> LoadRow(row, s, t, f, num).None?
  {
  }

  // ---------------------------------------------------------------------------
  // main: the error column and the RMSE
  // ---------------------------------------------------------------------------

  /** A row of `results_df` once `error` has been added. */
  datatype ScoredOutcome = ScoredOutcome(sector: string, actual: real, predicted: real, error: real)

  /** `results_df['error'] = results_df['actual'] - results_df['predicted']`. */
  function ErrorColumn(results: seq<Outcome>): (r: seq<ScoredOutcome>)
    ensures |r| == |results|
    ensures forall i :: 0 <= i < |r| ==>
              r[i].sector == results[i].sector && r[i].actual == results[i].actual
              && r[i].predicted == results[i].predicted && r[i].predicted + r[i].error == r[i].actual
  {
    seq(|results|, i requires 0 <= i < |results| =>
      ScoredOutcome(results[i].sector, results[i].actual, results[i].predicted, results[i].actual - results[i].predicted))
  }

  /** The sum of the squared `error` column. */
  function SquaredErrors(scored: seq<ScoredOutcome>): real {
    if scored == [] then 0.0 else Square(scored[0].error) + SquaredErrors(scored[1..])
  }

  /** The error column squares to the same sum that `mean_squared_error` is built on. */
  lemma {:induction false} ErrorColumnSquares(results: seq<Outcome>)
    ensures SquaredErrors(ErrorColumn(results)) == SquaredErrorSum(results)
  {
    if results != [] {
      ErrorColumnSquares(results[1..]);
      assert ErrorColumn(results)[1..] == ErrorColumn(results[1..]);
    }
  }

  /**
   * `mean_squared_error(results_df['actual'], results_df['predicted'])`, which rejects an
   * empty results file; the square root taken for the RMSE is left out.
   */
  function ResultsError(results: seq<Outcome>): (r: Result<real>)
    ensures r.Failure? <==> results == []
    ensures r.Success? ==> r.value >= 0.0 && (r.value == 0.0 <==> forall i :: 0 <= i < |results| ==> ErrorColumn(results)[i].error == 0.0)
  {
    if results == [] then Failure("ValueError: Found array with 0 sample(s)")
    else
      var m := MeanSquaredError(results);
      var scored := ErrorColumn(results);
      assert (forall o :: o in results ==> o.actual == o.predicted)
             <==> forall i :: 0 <= i < |results| ==> scored[i].error == 0.0 by {
        if forall i :: 0 <= i < |results| ==> scored[i].error == 0.0 {
          forall o | o in results ensures o.actual == o.predicted {
            var i :| 0 <= i < |results| && results[i] == o;
            assert scored[i].predicted + scored[i].error == scored[i].actual;
          }
        }
      }
      Success(m)
  }

  // ---------------------------------------------------------------------------
  // main: the sample sectors
  // ---------------------------------------------------------------------------

  /** The order of `sort_values('actual', ascending=False)`: larger actual traffic first. */
  predicate ActualGe(a: Outcome, b: Outcome) {
    a.actual >= b.actual
  }

  lemma ActualGeKeyOrder()
    ensures IsKeyOrder(ActualGe)
  {
  }

  /** The number of sample sectors: four, or every row when there are fewer. */
  function SampleSize(n: nat): nat {
    if n < 4 then n else 4
  }

  /** `results_df.sort_values('actual', ascending=False).head(4)`. */
  function TopRows(results: seq<Outcome>): seq<Outcome> {
    SortBy(results, ActualGe)[..SampleSize(|results|)]
  }

  /** `...['secteur'].head(4).tolist()`. */
  function SampleSectors(results: seq<Outcome>): (sample: seq<string>)
    ensures |sample| == |TopRows(results)|
    ensures forall i :: 0 <= i < |sample| ==> sample[i] == TopRows(results)[i].sector
  {
    var top := TopRows(results);
    seq(|top|, i requires 0 <= i < |top| => top[i].sector)
  }

  /** In a sequence sorted by decreasing actual traffic, a prefix dominates the rest. */
  lemma PrefixDominates(sorted: seq<Outcome>, k: nat)
    requires SortedBy(sorted, ActualGe) && k <= |sorted|
    ensures forall a, b :: a in sorted[..k] && b in sorted[k..] ==> a.actual >= b.actual
  {
    forall a, b | a in sorted[..k] && b in sorted[k..] ensures a.actual >= b.actual {
      var i :| 0 <= i < k && sorted[..k][i] == a;
      var j :| 0 <= j < |sorted| - k && sorted[k..][j] == b;
      assert ActualGe(sorted[i], sorted[k + j]);
    }
  }

  /** What a prefix leaves out of a sequence is the multiset of the suffix. */
  lemma PrefixRemainder<T>(s: seq<T>, k: nat)
    requires k <= |s|
    ensures multiset(s[..k]) <= multiset(s)
    ensures multiset(s) - multiset(s[..k]) == multiset(s[k..])
  {
    assert s == s[..k] + s[k..];
  }

  /**
   * The sample takes four result rows, or all of them when there are fewer; they are rows of
   * the results, ordered by decreasing actual traffic, and each has at least the actual traffic
   * of every row left out.
   */
  lemma TopRowsSpec(results: seq<Outcome>)
    ensures var top := TopRows(results);
            |top| == SampleSize(|results|) && |top| <= 4
            && multiset(top) <= multiset(results)
            && SortedBy(top, ActualGe)
            && forall a, b :: a in top && b in multiset(results) - multiset(top) ==> a.actual >= b.actual
  {
    ActualGeKeyOrder();
    SortBySorted(results, ActualGe);
    var sorted := SortBy(results, ActualGe);
    var k := SampleSize(|results|);
    PrefixDominates(sorted, k);
    PrefixRemainder(sorted, k);
  }

  /** With at least one result, the first sample sector is a row with the largest actual traffic. */
  lemma FirstSampleIsLargest(results: seq<Outcome>)
    requires results != []
    ensures SampleSectors(results) != []
    ensures exists i :: 0 <= i < |results| && results[i].sector == SampleSectors(results)[0]
                        && forall j :: 0 <= j < |results| ==> results[i].actual >= results[j].actual
  {
    ActualGeKeyOrder();
    SortBySorted(results, ActualGe);
    var sorted := SortBy(results, ActualGe);
    var a := sorted[0];
    assert a in multiset(results);
    var i :| 0 <= i < |results| && results[i] == a;
    forall j | 0 <= j < |results| ensures a.actual >= results[j].actual {
      assert results[j] in multiset(sorted);
      var l :| 0 <= l < |sorted| && sorted[l] == results[j];
      if l > 0 {
        assert ActualGe(sorted[0], sorted[l]);
      }
    }
  }
}
