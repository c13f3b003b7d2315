/**
 * forecast_traffic.py: load the traffic export, regularise every sector's history, hold out
 * each sector's last grid point as ground truth, hand the rest to the forecaster, and pair
 * its one-step forecasts with the held-out values.
 *
 * The file is given as its lines (for the header scan) and as the table `read_csv` returns
 * after skipping a number of lines; number parsing and the forecaster are parameters.
 */
module ForecastTraffic {
  import opened Wrappers
  import opened Text
  import opened Calendar
  import opened Header
  import opened Frame
  import opened Sorting
  import opened Cleaning
  import opened Resample

  /** The columns `load_data` touches, in the order it touches them. */
  const LoadColumns: seq<string> := ["secteur", "tstamp", "trafic_mbps"]

  // ---------------------------------------------------------------------------
  // load_data
  // ---------------------------------------------------------------------------

  /** The table after `read_csv` (skipping the preamble) and the column clean-up. */
  function CleanTable(lines: seq<string>, readCsv: nat -> Table): Table {
    Clean(readCsv(HeaderIndex(lines)))
  }

  /**
   * What `load_data` makes of one row, given the positions of `secteur`, `tstamp` and
   * `trafic_mbps`: a repeated header row, a row whose date does not parse, and a row with a
   * missing sector or a traffic value that is missing or not a number are dropped.
   */
  function LoadRow(row: Row, s: nat, t: nat, f: nat, num: string -> Option<real>): (r: Option<Observation>)
    ensures r.Some? ==> r.value.sector != "secteur" && MinDay <= r.value.date <= MaxDay
    ensures r.Some? ==> CellAt(row, s) == Some(r.value.sector) && num(CellText(CellAt(row, f))) == Some(r.value.traffic)
    ensures r.Some? ==> FrenchCellDay(CellAt(row, t)) == Some(r.value.date)
    ensures CellAt(row, s).None? || CellAt(row, f).None? || FrenchCellDay(CellAt(row, t)).None? ==> r.None?
    ensures r.Some? <==> CellAt(row, s).Some? && CellAt(row, s) != Some("secteur") && FrenchCellDay(CellAt(row, t)).Some?
                         && CellAt(row, f).Some? && num(CellAt(row, f).value).Some?
  {
    LoadRowWith(row, s, t, f, FrenchCellDay, num)
  }

  function LoadRowWith(row: Row, s: nat, t: nat, f: nat, dayOf: Option<string> -> Option<int>, num: string -> Option<real>): (r: Option<Observation>)
    ensures r.Some? ==> CellAt(row, s) == Some(r.value.sector) && r.value.sector != "secteur"
                        && CellAt(row, f).Some? && num(CellAt(row, f).value) == Some(r.value.traffic)
                        && dayOf(CellAt(row, t)) == Some(r.value.date)
    ensures CellAt(row, s).None? || CellAt(row, f).None? || dayOf(CellAt(row, t)).None? ==> r.None?
    ensures r.Some? <==> CellAt(row, s).Some? && CellAt(row, s) != Some("secteur") && dayOf(CellAt(row, t)).Some?
                         && CellAt(row, f).Some? && num(CellAt(row, f).value).Some?
  {
    if CellAt(row, s) == Some("secteur") then None
    else
      var day := dayOf(CellAt(row, t));
      if day.None? || CellAt(row, f).None? || CellAt(row, s).None? then None
      else
        match num(CellAt(row, f).value)
        case None => None
        case Some(v) => Some(Observation(CellAt(row, s).value, day.value, v))
  }

  function LoadRowFn(cols: seq<nat>, num: string -> Option<real>): Row -> Option<Observation>
    requires |cols| == 3
  {
    (row: Row) => LoadRow(row, cols[0], cols[1], cols[2], num)
  }

  /** The row steps of `load_data` (lines 35-40), composed into one step. */
  function LoadSteps(s: nat, t: nat, f: nat, num: string -> Option<real>): Row -> Option<Observation> {
    Then(Then(Then(Then(Then(Then(
      DropRepeatedHeader(s),
      Stage()),
      AddDate(t, FrenchCellDay)),
      DropMissing(true, [f, s], false)),
      ToNumeric(f, num)),
      DropMissing(false, [], true)),
      ToObservation(s))
  }

  lemma LoadStepsChain(rows: seq<Row>, s: nat, t: nat, f: nat, num: string -> Option<real>)
    ensures
      Choose(Choose(Choose(Choose(Choose(Choose(Choose(rows,
        DropRepeatedHeader(s)),
        Stage()),
        AddDate(t, FrenchCellDay)),
        DropMissing(true, [f, s], false)),
        ToNumeric(f, num)),
        DropMissing(false, [], true)),
        ToObservation(s))
      == Choose(rows, LoadSteps(s, t, f, num))
  {
    var f1 := Then(DropRepeatedHeader(s), Stage());
    var f2 := Then(f1, AddDate(t, FrenchCellDay));
    var f3 := Then(f2, DropMissing(true, [f, s], false));
    var f4 := Then(f3, ToNumeric(f, num));
    var f5 := Then(f4, DropMissing(false, [], true));
    ChooseThen(rows, DropRepeatedHeader(s), Stage());
    ChooseThen(rows, f1, AddDate(t, FrenchCellDay));
    ChooseThen(rows, f2, DropMissing(true, [f, s], false));
    ChooseThen(rows, f3, ToNumeric(f, num));
    ChooseThen(rows, f4, DropMissing(false, [], true));
    ChooseThen(rows, f5, ToObservation(s));
  }

  lemma LoadStepsRowWith(row: Row, s: nat, t: nat, f: nat, dayOf: Option<string> -> Option<int>, num: string -> Option<real>)
    ensures Then(Then(Then(Then(Then(Then(
              DropRepeatedHeader(s),
              Stage()),
              AddDate(t, dayOf)),
              DropMissing(true, [f, s], false)),
              ToNumeric(f, num)),
              DropMissing(false, [], true)),
              ToObservation(s))(row)
            == LoadRowWith(row, s, t, f, dayOf, num)
  {
    var f1 := Then(DropRepeatedHeader(s), Stage());
    var f2 := Then(f1, AddDate(t, dayOf));
    var f3 := Then(f2, DropMissing(true, [f, s], false));
    var f4 := Then(f3, ToNumeric(f, num));
    var f5 := Then(f4, DropMissing(false, [], true));
    if CellAt(row, s) == Some("secteur") {
      assert f1(row) == None;
    } else {
      var x := Staged(row, dayOf(CellAt(row, t)), None);
      assert f1(row) == Some(Staged(row, None, None));
      assert f2(row) == Some(x);
      assert AllPresent(row, [f, s]) <==> CellAt(row, f).Some? && CellAt(row, s).Some? by {
        assert [f, s][1..] == [s] && [s][1..] == [];
        assert AllPresent(row, [s]) <==> CellAt(row, s).Some?;
      }
      assert f3(row) == DropMissing(true, [f, s], false)(x);
      if x.date.Some? && CellAt(row, f).Some? && CellAt(row, s).Some? {
        assert f3(row) == Some(x);
        var y := x.(traffic := num(CellAt(row, f).value));
        assert f4(row) == Some(y);
      } else {
        assert f3(row) == None;
      }
    }
  }

  lemma LoadStepsRow(row: Row, s: nat, t: nat, f: nat, num: string -> Option<real>)
    ensures LoadSteps(s, t, f, num)(row) == LoadRow(row, s, t, f, num)
  {
    LoadStepsRowWith(row, s, t, f, FrenchCellDay, num);
  }

  /** The row steps of `load_data`, run one after another, are `LoadRow` on every row. */
  lemma LoadStepsAreLoadRow(rows: seq<Row>, cols: seq<nat>, num: string -> Option<real>)
    requires |cols| == 3
    ensures
      Choose(Choose(Choose(Choose(Choose(Choose(Choose(rows,
        DropRepeatedHeader(cols[0])),
        Stage()),
        AddDate(cols[1], FrenchCellDay)),
        DropMissing(true, [cols[2], cols[0]], false)),
        ToNumeric(cols[2], num)),
        DropMissing(false, [], true)),
        ToObservation(cols[0]))
      == Choose(rows, LoadRowFn(cols, num))
  {
    var s, t, f := cols[0], cols[1], cols[2];
    LoadStepsChain(rows, s, t, f, num);
    forall i | 0 <= i < |rows| ensures LoadSteps(s, t, f, num)(rows[i]) == LoadRowFn(cols, num)(rows[i]) {
      LoadStepsRow(rows[i], s, t, f, num);
    }
    ChooseCongruent(rows, LoadSteps(s, t, f, num), LoadRowFn(cols, num));
  }

  /**
   * `load_data`: skip the preamble, read the table, drop the empty columns, strip the column
   * names, then filter and convert the rows step by step and sort them by sector and date.
   * A missing column raises `KeyError`.
   */
  function Loaded(lines: seq<string>, readCsv: nat -> Table, num: string -> Option<real>): Result<seq<Observation>> {
    var t := CleanTable(lines, readCsv);
    match Resolve(t.columns, LoadColumns)
    case Failure(e) => Failure(e)
    case Success(cols) => Success(SortBy(Choose(t.rows, LoadRowFn(cols, num)), SectorDateLe))
  }

  /** The statements of `load_data`, run one after another. */
  method LoadData(lines: seq<string>, readCsv: nat -> Table, num: string -> Option<real>)
    returns (r: Result<seq<Observation>>)
    ensures r == Loaded(lines, readCsv, num)
  {
    var header := FindHeader(lines);
    var table := readCsv(header);
    table := DropEmptyColumns(table);
    table := StripColumnNames(table);
    var cols := Resolve(table.columns, LoadColumns);
    if cols.Failure? {
      return Failure(cols.error);
    }
    var s, t, f := cols.value[0], cols.value[1], cols.value[2];
    var rows := Choose(table.rows, DropRepeatedHeader(s));
    var staged := Choose(rows, Stage());
    staged := Choose(staged, AddDate(t, FrenchCellDay));
    staged := Choose(staged, DropMissing(true, [f, s], false));
    staged := Choose(staged, ToNumeric(f, num));
    staged := Choose(staged, DropMissing(false, [], true));
    var loaded := Choose(staged, ToObservation(s));
    loaded := SortBy(loaded, SectorDateLe);
    LoadStepsAreLoadRow(table.rows, cols.value, num);
    r := Success(loaded);
  }

  /**
   * `load_data` fails exactly when one of its three columns is missing after the clean-up,
   * with the `KeyError` of the first missing one; an export without data rows loses every
   * column to `dropna(axis=1, how='all')` and fails on `secteur`. On success the rows are
   * sorted by sector then date, and none repeats the header or carries an out-of-range day.
   */
  lemma LoadedSpec(lines: seq<string>, readCsv: nat -> Table, num: string -> Option<real>)
    ensures var r := Loaded(lines, readCsv, num);
            r.Success? <==> forall k :: 0 <= k < |LoadColumns| ==> LoadColumns[k] in CleanTable(lines, readCsv).columns
    ensures var r := Loaded(lines, readCsv, num);
            r.Failure? ==> exists k :: 0 <= k < |LoadColumns| && LoadColumns[k] !in CleanTable(lines, readCsv).columns
                             && r.error == "KeyError: " + LoadColumns[k]
                             && forall l :: 0 <= l < k ==> LoadColumns[l] in CleanTable(lines, readCsv).columns
    ensures |readCsv(HeaderIndex(lines)).rows| == 0 ==> Loaded(lines, readCsv, num) == Failure("KeyError: secteur")
    ensures var r := Loaded(lines, readCsv, num);
            r.Success? ==> SortedBy(r.value, SectorDateLe)
                           && forall o :: o in r.value ==> o.sector != "secteur" && MinDay <= o.date <= MaxDay
  {
    var t := CleanTable(lines, readCsv);
    var cols := Resolve(t.columns, LoadColumns);
    if cols.Success? {
      LoadedRows(t.rows, cols.value, num);
    }
    if |readCsv(HeaderIndex(lines)).rows| == 0 {
      assert t.columns == [];
      assert LoadColumns[0] !in t.columns;
    }
  }

  /** Sorted by sector then date, and every loaded row names a real sector and an in-range day. */
  lemma LoadedRows(rows: seq<Row>, cols: seq<nat>, num: string -> Option<real>)
    requires |cols| == 3
    ensures var loaded := SortBy(Choose(rows, LoadRowFn(cols, num)), SectorDateLe);
            SortedBy(loaded, SectorDateLe)
            && forall o :: o in loaded ==> o.sector != "secteur" && MinDay <= o.date <= MaxDay
  {
    var unsorted := Choose(rows, LoadRowFn(cols, num));
    SectorDateKeyOrder();
    SortBySorted(unsorted, SectorDateLe);
    forall o | o in SortBy(unsorted, SectorDateLe) ensures o.sector != "secteur" && MinDay <= o.date <= MaxDay {
      assert o in multiset(unsorted);
      ChooseMembers(rows, LoadRowFn(cols, num), o);
      var i :| 0 <= i < |rows| && LoadRowFn(cols, num)(rows[i]) == Some(o);
    }
  }

  /**
   * The loaded rows are exactly the rows `LoadRow` keeps, each once per table row, and rows of
   * the same sector and date stay in file order.
   */
  lemma LoadDataContents(t: Table, cols: seq<nat>, num: string -> Option<real>, o: Observation)
    requires |cols| == 3
    ensures var loaded := SortBy(Choose(t.rows, LoadRowFn(cols, num)), SectorDateLe);
            multiset(loaded) == multiset(Choose(t.rows, LoadRowFn(cols, num)))
            && (o in loaded <==> exists i :: 0 <= i < |t.rows| && LoadRow(t.rows[i], cols[0], cols[1], cols[2], num) == Some(o))
            && WithKeyOf(loaded, SectorDateLe, o) == WithKeyOf(Choose(t.rows, LoadRowFn(cols, num)), SectorDateLe, o)
  {
    var unsorted := Choose(t.rows, LoadRowFn(cols, num));
    SectorDateKeyOrder();
    SortBySorted(unsorted, SectorDateLe);
    SortByStable(unsorted, SectorDateLe, o);
    ChooseMembers(t.rows, LoadRowFn(cols, num), o);
    assert o in SortBy(unsorted, SectorDateLe) <==> o in multiset(unsorted);
  }

  // ---------------------------------------------------------------------------
  // main: one regular series per sector, split into context and ground truth
  // ---------------------------------------------------------------------------

  /** `df['secteur'].unique()`: each sector once, in order of first appearance. */
  function UniqueSectors(df: seq<Observation>): (u: seq<string>)
    ensures forall i, j :: 0 <= i < j < |u| ==> u[i] != u[j]
    ensures forall sec :: sec in u <==> exists i :: 0 <= i < |df| && df[i].sector == sec
  {
    if df == [] then []
    else
      var init, last := df[..|df| - 1], df[|df| - 1];
      var u := UniqueSectors(init);
      assert forall i :: 0 <= i < |init| ==> init[i] == df[i];
      if last.sector in u then u else u + [last.sector]
  }

  /** `df[df['secteur'] == sector]`, keeping the date and traffic of each row. */
  function SectorPoint(sector: string): Observation -> Option<Point> {
    (o: Observation) => if o.sector == sector then Some(Point(o.date, o.traffic)) else None
  }

  function SectorPoints(df: seq<Observation>, sector: string): seq<Point> {
    Choose(df, SectorPoint(sector))
  }

  /** One row of the context frame handed to the forecaster. */
  datatype ContextRow = ContextRow(sector: string, date: int, traffic: real)

  /** `sector_df.iloc[:-1].reset_index()`: every grid point but the last, with its sector. */
  function ContextOf(sector: string, r: Series): seq<ContextRow>
    requires |r.traffic| >= 1
  {
    seq(|r.traffic| - 1, k requires 0 <= k < |r.traffic| - 1 => ContextRow(sector, GridDate(r.start, k), r.traffic[k]))
  }

  /** The traffic column of a context frame. */
  function ContextTraffic(c: seq<ContextRow>): (v: seq<real>)
    ensures |v| == |c| && forall k :: 0 <= k < |c| ==> v[k] == c[k].traffic
  {
    seq(|c|, k requires 0 <= k < |c| => c[k].traffic)
  }

  /**
   * Context and ground truth split the series without loss: the context's traffic followed by
   * the ground-truth value is the whole series, the context is never empty, and its rows carry
   * the sector and the grid dates from the series start on, seven days apart.
   */
  lemma ContextSplit(sector: string, r: Series)
    requires |r.traffic| >= 2
    ensures ContextTraffic(ContextOf(sector, r)) + [LastTraffic(r)] == r.traffic
    ensures |ContextOf(sector, r)| == |r.traffic| - 1 >= 1
    ensures ContextOf(sector, r)[0].date == r.start
    ensures forall k :: 0 < k < |ContextOf(sector, r)| ==>
              ContextOf(sector, r)[k].date == ContextOf(sector, r)[k - 1].date + Step
    ensures forall row :: row in ContextOf(sector, r) ==> row.sector == sector
  {
    var c := ContextOf(sector, r);
    assert ContextTraffic(c) + [LastTraffic(r)] == r.traffic by {
      forall k | 0 <= k < |r.traffic| ensures (ContextTraffic(c) + [LastTraffic(r)])[k] == r.traffic[k] {
      }
    }
  }

  /** What the loop body makes of one sector: its context frame, unless the sector is skipped. */
  function SectorContext(df: seq<Observation>): string -> Option<seq<ContextRow>> {
    (sector: string) =>
      match Regularize(SectorPoints(df, sector))
      case None => None
      case Some(r) => Some(ContextOf(sector, r))
  }

  /** `clean_context_list` once the loop has run over every sector. */
  function Contexts(df: seq<Observation>): seq<seq<ContextRow>> {
    Choose(UniqueSectors(df), SectorContext(df))
  }

  /** The ground-truth value of a sector, when the sector is kept. */
  function SectorTruth(df: seq<Observation>, sector: string): Option<real> {
    match Regularize(SectorPoints(df, sector))
    case None => None
    case Some(r) => Some(LastTraffic(r))
  }

  /** `ground_truth` after the loop has run over the sectors in `done`. */
  function TruthOver(df: seq<Observation>, done: seq<string>): map<string, real> {
    if done == [] then map[]
    else
      var m := TruthOver(df, done[..|done| - 1]);
      var sector := done[|done| - 1];
      match SectorTruth(df, sector)
      case None => m
      case Some(v) => m[sector := v]
  }

  /** The loop records an entry for each kept sector it has visited, holding its ground truth. */
  lemma {:induction false} TruthOverSpec(df: seq<Observation>, done: seq<string>)
    ensures forall sec :: sec in TruthOver(df, done) <==> sec in done && SectorTruth(df, sec).Some?
    ensures forall sec :: sec in TruthOver(df, done) ==> TruthOver(df, done)[sec] == SectorTruth(df, sec).value
  {
    if done != [] {
      var init := done[..|done| - 1];
      TruthOverSpec(df, init);
      assert forall sec :: sec in done <==> sec in init || sec == done[|done| - 1];
    }
  }

  /** One more iteration of the loop records one more sector, if it is kept. */
  lemma TruthOverSnoc(df: seq<Observation>, done: seq<string>, sector: string)
    ensures SectorTruth(df, sector).None? ==> TruthOver(df, done + [sector]) == TruthOver(df, done)
    ensures SectorTruth(df, sector).Some? ==>
              TruthOver(df, done + [sector]) == TruthOver(df, done)[sector := SectorTruth(df, sector).value]
  {
    assert (done + [sector])[..|done|] == done;
  }

  /** `ground_truth` once the loop has run over every sector. */
  function GroundTruth(df: seq<Observation>): map<string, real> {
    TruthOver(df, UniqueSectors(df))
  }

  /**
   * `ground_truth` has an entry for a sector exactly when the sector occurs in the loaded table
   * with at least ten distinct dates; the entry is the value at the last point of the sector's
   * regular series, the point the context leaves out.
   */
  lemma GroundTruthAt(df: seq<Observation>, sector: string)
    ensures sector in GroundTruth(df) <==>
              (exists i :: 0 <= i < |df| && df[i].sector == sector) && |KeepFirst(SectorPoints(df, sector))| >= MinDates
    ensures sector in GroundTruth(df) ==>
              var r := Regularize(SectorPoints(df, sector)).value;
              GroundTruth(df)[sector] == LastTraffic(r)
              && ContextTraffic(ContextOf(sector, r)) + [GroundTruth(df)[sector]] == r.traffic
  {
    TruthOverSpec(df, UniqueSectors(df));
    SectorStep(df, sector);
    if sector in GroundTruth(df) {
      var r := Regularize(SectorPoints(df, sector)).value;
      assert SectorTruth(df, sector) == Some(LastTraffic(r));
      ContextSplit(sector, r);
    }
  }

  /** The loop body on one sector, step by step. */
  lemma SectorStep(df: seq<Observation>, sector: string)
    ensures var kept := KeepFirst(SectorPoints(df, sector));
            |kept| < MinDates ==> SectorContext(df)(sector).None? && SectorTruth(df, sector).None?
    ensures var kept := KeepFirst(SectorPoints(df, sector));
            |kept| >= MinDates ==>
              var series := SeriesOf(kept);
              SectorContext(df)(sector) == Some(ContextOf(sector, series))
              && SectorTruth(df, sector) == Some(series.traffic[|series.traffic| - 1])
  {
    RegularizeStep(SectorPoints(df, sector));
  }

  /** `Regularize` skips a short history and otherwise builds the series from the kept points. */
  lemma RegularizeStep(points: seq<Point>)
    ensures |KeepFirst(points)| < MinDates ==> Regularize(points).None?
    ensures |KeepFirst(points)| >= MinDates ==> Regularize(points) == Some(SeriesOf(KeepFirst(points)))
  {
  }

  /**
   * One iteration of the loop: whatever it adds to `clean_context_list` and `ground_truth` for
   * `sector == sectors[i]` (nothing for a skipped sector, the context frame and the last grid
   * value otherwise) extends the state after `i` sectors to the state after `i + 1`.
   */
  lemma PrepareStep(df: seq<Observation>, sectors: seq<string>, i: nat, sector: string, series: Option<Series>,
                    contexts: seq<seq<ContextRow>>, truth: map<string, real>,
                    contexts': seq<seq<ContextRow>>, truth': map<string, real>)
    requires i < |sectors| && sector == sectors[i]
    requires contexts == Choose(sectors[..i], SectorContext(df)) && truth == TruthOver(df, sectors[..i])
    requires series == Regularize(SectorPoints(df, sector))
    requires series.None? ==> contexts' == contexts && truth' == truth
    requires series.Some? ==>
               contexts' == contexts + [ContextOf(sector, series.value)]
               && truth' == truth[sector := LastTraffic(series.value)]
    ensures contexts' == Choose(sectors[..i + 1], SectorContext(df))
    ensures truth' == TruthOver(df, sectors[..i + 1])
  {
    var done := sectors[..i];
    PrefixSnoc(sectors, i);
    ContextStep(df, done, sector, series);
    TruthStep(df, done, sector, series);
  }

  /** The frame one more sector adds to `clean_context_list`. */
  lemma ContextStep(df: seq<Observation>, done: seq<string>, sector: string, series: Option<Series>)
    requires series == Regularize(SectorPoints(df, sector))
    ensures series.None? ==> Choose(done + [sector], SectorContext(df)) == Choose(done, SectorContext(df))
    ensures series.Some? ==>
              Choose(done + [sector], SectorContext(df)) == Choose(done, SectorContext(df)) + [ContextOf(sector, series.value)]
  {
    ChooseAppend(done, [sector], SectorContext(df));
    ChooseSingle(sector, SectorContext(df));
  }

  /** The entry one more sector adds to `ground_truth`. */
  lemma TruthStep(df: seq<Observation>, done: seq<string>, sector: string, series: Option<Series>)
    requires series == Regularize(SectorPoints(df, sector))
    ensures series.None? ==> TruthOver(df, done + [sector]) == TruthOver(df, done)
    ensures series.Some? ==>
              TruthOver(df, done + [sector]) == TruthOver(df, done)[sector := LastTraffic(series.value)]
  {
    TruthOverSnoc(df, done, sector);
  }

  /**
   * The loop of `main` over the sectors: de-duplicate, skip sectors with fewer than ten dates,
   * regularise, fill, then record the context frame and the ground-truth value.
   */
  method PrepareContexts(df: seq<Observation>) returns (contexts: seq<seq<ContextRow>>, truth: map<string, real>)
    ensures contexts == Contexts(df)
    ensures truth == GroundTruth(df)
  {
    var sectors := UniqueSectors(df);
    contexts, truth := PrepareSectors(df, sectors);
  }

  /** The body of that loop, run over the sectors in `sectors`, in order. */
  method PrepareSectors(df: seq<Observation>, sectors: seq<string>) returns (contexts: seq<seq<ContextRow>>, truth: map<string, real>)
    ensures contexts == Choose(sectors, SectorContext(df))
    ensures truth == TruthOver(df, sectors)
  {
    contexts := [];
    truth := map[];
    var i := 0;
    while i < |sectors|
      invariant 0 <= i <= |sectors|
      invariant contexts == Choose(sectors[..i], SectorContext(df))
      invariant truth == TruthOver(df, sectors[..i])
    {
      var sector := sectors[i];
      var points := SectorPoints(df, sector);
      var series := Regularize(points);
      var contexts0, truth0 := contexts, truth;
      if series.Some? {
        contexts := contexts + [ContextOf(sector, series.value)];
        truth := truth[sector := LastTraffic(series.value)];
      }
      PrepareStep(df, sectors, i, sector, series, contexts0, truth0, contexts, truth);
      i := i + 1;
    }
    assert sectors[..i] == sectors;
  }

  /** A sector's context frame is not empty, belongs to that sector, and comes with a ground truth. */
  lemma SectorContextSpec(df: seq<Observation>, sector: string, c: seq<ContextRow>)
    requires SectorContext(df)(sector) == Some(c)
    ensures c != [] && SectorTruth(df, sector).Some?
    ensures forall row :: row in c ==> row.sector == sector
  {
    ContextSplit(sector, Regularize(SectorPoints(df, sector)).value);
  }

  /** The frames are never empty, and each holds the rows of one sector that was kept. */
  lemma ContextsSpec(df: seq<Observation>)
    ensures forall c :: c in Contexts(df) ==>
              c != [] && exists sec :: sec in GroundTruth(df) && forall row :: row in c ==> row.sector == sec
  {
    forall c | c in Contexts(df)
      ensures c != [] && exists sec :: sec in GroundTruth(df) && forall row :: row in c ==> row.sector == sec
    {
      var u := UniqueSectors(df);
      ChooseMembers(u, SectorContext(df), c);
      var i :| 0 <= i < |u| && SectorContext(df)(u[i]) == Some(c);
      SectorContextSpec(df, u[i], c);
      TruthOverSpec(df, u);
      assert u[i] in GroundTruth(df);
    }
  }

  /**
   * A sector of the loaded table is kept (it has a ground-truth value and a context frame)
   * exactly when it has at least ten distinct dates; a skipped sector leaves no trace.
   */
  lemma SectorKeptIff(df: seq<Observation>, sector: string)
    requires exists i :: 0 <= i < |df| && df[i].sector == sector
    ensures sector in GroundTruth(df) <==> |KeepFirst(SectorPoints(df, sector))| >= MinDates
    ensures |KeepFirst(SectorPoints(df, sector))| >= MinDates ==>
              ContextOf(sector, Regularize(SectorPoints(df, sector)).value) in Contexts(df)
    ensures |KeepFirst(SectorPoints(df, sector))| < MinDates ==>
              forall c, row :: c in Contexts(df) && row in c ==> row.sector != sector
  {
    var u := UniqueSectors(df);
    GroundTruthAt(df, sector);
    assert sector in u;
    var j :| 0 <= j < |u| && u[j] == sector;
    if |KeepFirst(SectorPoints(df, sector))| >= MinDates {
      ChooseMembers(u, SectorContext(df), ContextOf(sector, Regularize(SectorPoints(df, sector)).value));
    } else {
      forall c, row | c in Contexts(df) && row in c ensures row.sector != sector {
        ChooseMembers(u, SectorContext(df), c);
        var i :| 0 <= i < |u| && SectorContext(df)(u[i]) == Some(c);
        SectorContextSpec(df, u[i], c);
      }
    }
  }

  /** `pd.concat(clean_context_list)`. */
  function Concat(frames: seq<seq<ContextRow>>): (rows: seq<ContextRow>)
    ensures forall row :: row in rows <==> exists c :: c in frames && row in c
  {
    if frames == [] then []
    else
      var rest := Concat(frames[1..]);
      assert forall c :: c in frames <==> c == frames[0] || c in frames[1..];
      frames[0] + rest
  }

  /** Where frame `i` starts in the concatenation: the total length of the frames before it. */
  function Offset(frames: seq<seq<ContextRow>>, i: nat): nat
    requires i <= |frames|
  {
    if i == 0 then 0 else |frames[0]| + Offset(frames[1..], i - 1)
  }

  /**
   * `pd.concat` keeps every frame whole and in list order: the result is as long as all frames
   * together, and frame `i` is the block starting at its offset.
   */
  lemma {:induction false} ConcatBlocks(frames: seq<seq<ContextRow>>)
    ensures |Concat(frames)| == Offset(frames, |frames|)
    ensures forall i :: 0 <= i < |frames| ==>
              Offset(frames, i) + |frames[i]| <= |Concat(frames)|
              && Concat(frames)[Offset(frames, i)..Offset(frames, i) + |frames[i]|] == frames[i]
  {
    if frames != [] {
      var tail := frames[1..];
      var rest := Concat(tail);
      ConcatBlocks(tail);
      assert Concat(frames) == frames[0] + rest;
      forall i | 0 <= i < |frames|
        ensures Offset(frames, i) + |frames[i]| <= |Concat(frames)|
        ensures Concat(frames)[Offset(frames, i)..Offset(frames, i) + |frames[i]|] == frames[i]
      {
        if i > 0 {
          var o := Offset(tail, i - 1);
          assert frames[i] == tail[i - 1];
          assert Offset(frames, i) == |frames[0]| + o;
          assert (frames[0] + rest)[|frames[0]| + o..|frames[0]| + o + |frames[i]|] == rest[o..o + |frames[i]|];
        }
      }
    }
  }

  // ---------------------------------------------------------------------------
  // main: pairing the forecasts with the ground truth
  // ---------------------------------------------------------------------------

  /** A forecast row: the sector and the median forecast (`row['0.5']`). */
  datatype Prediction = Prediction(sector: string, predicted: real)

  /** A row of `results_df`. */
  datatype Outcome = Outcome(sector: string, actual: real, predicted: real)

  /** The loop body: a forecast for a sector with a ground-truth value becomes a result row. */
  function Pair(truth: map<string, real>): Prediction -> Option<Outcome> {
    (p: Prediction) => if p.sector in truth then Some(Outcome(p.sector, truth[p.sector], p.predicted)) else None
  }

  /** The loop of `main` over `forecast_df.iterrows()`. */
  method Align(forecast: seq<Prediction>, truth: map<string, real>) returns (results: seq<Outcome>)
    ensures results == Choose(forecast, Pair(truth))
  {
    results := [];
    var i := 0;
    while i < |forecast|
      invariant 0 <= i <= |forecast|
      invariant results == Choose(forecast[..i], Pair(truth))
    {
      var row := forecast[i];
      ChooseAppend(forecast[..i], [row], Pair(truth));
      ChooseSingle(row, Pair(truth));
      assert forecast[..i + 1] == forecast[..i] + [row];
      if row.sector in truth {
        results := results + [Outcome(row.sector, truth[row.sector], row.predicted)];
      }
      i := i + 1;
    }
    assert forecast[..i] == forecast;
  }

  /**
   * Each result row is a forecast row whose sector has a ground-truth value, with that value as
   * `actual`; every such forecast row yields one; when every forecast sector has a ground-truth
   * value the results follow the forecast row by row; there are no results exactly when no
   * forecast sector has one.
   */
  lemma AlignSpec(forecast: seq<Prediction>, truth: map<string, real>)
    ensures forall o :: o in Choose(forecast, Pair(truth)) <==>
              exists i :: 0 <= i < |forecast| && forecast[i].sector in truth
                          && o == Outcome(forecast[i].sector, truth[forecast[i].sector], forecast[i].predicted)
    ensures forall o :: o in Choose(forecast, Pair(truth)) ==> o.sector in truth && o.actual == truth[o.sector]
    ensures (forall i :: 0 <= i < |forecast| ==> forecast[i].sector in truth) ==>
              |Choose(forecast, Pair(truth))| == |forecast|
              && forall i :: 0 <= i < |forecast| ==>
                   Choose(forecast, Pair(truth))[i] == Outcome(forecast[i].sector, truth[forecast[i].sector], forecast[i].predicted)
    ensures Choose(forecast, Pair(truth)) == [] <==> forall i :: 0 <= i < |forecast| ==> forecast[i].sector !in truth
  {
    forall o ensures o in Choose(forecast, Pair(truth)) <==>
              exists i :: 0 <= i < |forecast| && forecast[i].sector in truth
                          && o == Outcome(forecast[i].sector, truth[forecast[i].sector], forecast[i].predicted)
    {
      ChooseMembers(forecast, Pair(truth), o);
    }
    ChooseEmpty(forecast, Pair(truth));
    if forall i :: 0 <= i < |forecast| ==> forecast[i].sector in truth {
      ChooseKeepsAll(forecast, Pair(truth));
    }
  }

  // ---------------------------------------------------------------------------
  // main: the whole run
  // ---------------------------------------------------------------------------

  /**
   * The results `main` writes to `prediction_results.csv`, given the forecaster as a function
   * of the context frame. `pd.concat` of an empty list raises `ValueError`; an empty result
   * list makes `results_df['actual']` raise `KeyError`.
   */
  function Forecast(lines: seq<string>, readCsv: nat -> Table, num: string -> Option<real>,
                    predict: seq<ContextRow> -> seq<Prediction>): Result<seq<Outcome>>
  {
    match Loaded(lines, readCsv, num)
    case Failure(e) => Failure(e)
    case Success(df) =>
      var contexts := Contexts(df);
      if contexts == [] then Failure("ValueError: No objects to concatenate")
      else
        var results := Choose(predict(Concat(contexts)), Pair(GroundTruth(df)));
        if results == [] then Failure("KeyError: actual") else Success(results)
  }

  /** `main`, up to the error computation. */
  method RunForecast(lines: seq<string>, readCsv: nat -> Table, num: string -> Option<real>,
                     predict: seq<ContextRow> -> seq<Prediction>) returns (r: Result<seq<Outcome>>)
    ensures r == Forecast(lines, readCsv, num, predict)
  {
    var loaded := LoadData(lines, readCsv, num);
    if loaded.Failure? {
      return Failure(loaded.error);
    }
    var df := loaded.value;
    var contexts, truth := PrepareContexts(df);
    if contexts == [] {
      return Failure("ValueError: No objects to concatenate");
    }
    var contextRows := Concat(contexts);
    var forecast := predict(contextRows);
    var results := Align(forecast, truth);
    if results == [] {
      return Failure("KeyError: actual");
    }
    r := Success(results);
  }

  /**
   * The run stops at `pd.concat` exactly when every sector of the loaded table has fewer than
   * ten distinct dates; otherwise the context frame is not empty.
   */
  lemma NoContextIff(df: seq<Observation>)
    ensures Contexts(df) == [] <==> forall sec :: sec in UniqueSectors(df) ==> |KeepFirst(SectorPoints(df, sec))| < MinDates
    ensures Contexts(df) != [] ==> Concat(Contexts(df)) != []
  {
    var u := UniqueSectors(df);
    ChooseEmpty(u, SectorContext(df));
    if Contexts(df) != [] {
      ContextsSpec(df);
      var c := Contexts(df)[0];
      assert c in Contexts(df);
      assert c[0] in Concat(Contexts(df));
    }
  }

  /**
   * Every result row of a successful run pairs a forecast for a kept sector with that sector's
   * ground-truth value (the last point of its regular series, by `GroundTruthAt`).
   */
  lemma ForecastSpec(lines: seq<string>, readCsv: nat -> Table, num: string -> Option<real>,
                     predict: seq<ContextRow> -> seq<Prediction>)
    requires Forecast(lines, readCsv, num, predict).Success?
    ensures var df := Loaded(lines, readCsv, num).value;
            forall o :: o in Forecast(lines, readCsv, num, predict).value ==>
              o.sector in GroundTruth(df) && o.actual == GroundTruth(df)[o.sector]
              && Prediction(o.sector, o.predicted) in predict(Concat(Contexts(df)))
  {
    var df := Loaded(lines, readCsv, num).value;
    var forecast := predict(Concat(Contexts(df)));
    AlignSpec(forecast, GroundTruth(df));
    forall o | o in Forecast(lines, readCsv, num, predict).value
      ensures o.sector in GroundTruth(df) && o.actual == GroundTruth(df)[o.sector]
              && Prediction(o.sector, o.predicted) in forecast
    {
      var i :| 0 <= i < |forecast| && forecast[i].sector in GroundTruth(df)
               && o == Outcome(forecast[i].sector, GroundTruth(df)[forecast[i].sector], forecast[i].predicted);
      assert forecast[i] == Prediction(o.sector, o.predicted);
    }
  }

  // ---------------------------------------------------------------------------
  // the error measure
  // ---------------------------------------------------------------------------

  /** The product of two reals, named so that squares reach the solver as products. */
  function Times(x: real, y: real): real {
    x * y
  }

  lemma TimesPositive(x: real, y: real)
    requires x > 0.0 && y > 0.0
    ensures Times(x, y) > 0.0
  {
  }

  lemma TimesNegate(x: real, y: real)
    ensures Times(-x, -y) == Times(x, y)
  {
  }

  /** The square of an error: never negative, and zero only for a zero error. */
  function Square(d: real): (s: real)
    ensures s >= 0.0
    ensures d != 0.0 ==> s > 0.0
  {
    if d > 0.0 then
      TimesPositive(d, d);
      Times(d, d)
    else if d < 0.0 then
      TimesPositive(-d, -d);
      TimesNegate(d, d);
      Times(d, d)
    else
      Times(d, d)
  }

  /** The sum of squared errors behind `mean_squared_error(actual, predicted)`. */
  function SquaredErrorSum(results: seq<Outcome>): (e: real)
    ensures e >= 0.0
  {
    if results == [] then 0.0
    else Square(results[0].actual - results[0].predicted) + SquaredErrorSum(results[1..])
  }

  /** The error is zero exactly when every forecast hits its ground truth. */
  lemma {:induction false} SquaredErrorSumZero(results: seq<Outcome>)
    ensures SquaredErrorSum(results) == 0.0 <==> forall o :: o in results ==> o.actual == o.predicted
  {
    if results != [] {
      var rest := results[1..];
      SquaredErrorSumZero(rest);
      assert forall o :: o in results <==> o == results[0] || o in rest;
    }
  }

  /** `mean_squared_error(results_df['actual'], results_df['predicted'])`. */
  function MeanSquaredError(results: seq<Outcome>): (m: real)
    requires results != []
    ensures m >= 0.0
    ensures m == 0.0 <==> forall o :: o in results ==> o.actual == o.predicted
  {
    SquaredErrorSumZero(results);
    SquaredErrorSum(results) / (|results| as real)
  }
}
