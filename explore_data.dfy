/**
 * explore_data.py: load the traffic export for exploration. The loader runs the same header
 * scan and column clean-up as the forecasting script, but its date parser echoes a short
 * timestamp text instead of giving up, it keeps rows whose sector is missing, and it does not
 * sort. The printed summaries and plots are not part of this model.
 */
module ExploreData {
  import opened Wrappers
  import opened Text
  import opened Calendar
  import opened FrenchDate
  import opened Header
  import opened Frame
  import opened Cleaning
  import ForecastTraffic

  /** The columns `load_data` touches, in the order it touches them. */
  const LoadColumns: seq<string> := ["secteur", "tstamp", "trafic_mbps"]

  /** A loaded row: the sector (NaN is kept), the day number and the traffic in Mbit/s. */
  datatype Measurement = Measurement(sector: Option<string>, date: int, traffic: real)

  /**
   * `pd.to_datetime(df['tstamp'].apply(lambda x: parse_french_date(str(x))), errors='coerce')`
   * on one cell: a French verbose date becomes its ISO text, any shorter text is passed on as
   * it is, and the result is parsed as `YYYY-MM-DD`.
   */
  function CellDay(cell: Option<string>): (d: Option<int>)
    ensures d.Some? ==> MinDay <= d.value <= MaxDay
  {
    ParseIsoDate(ParseFrenchDateOrEcho(CellText(cell)))
  }

  /**
   * The two loaders read a cell with four or more words alike; a shorter one the forecasting
   * loader always rejects, and this one parses as it stands.
   */
  lemma CellDayAgainstFrench(cell: Option<string>)
    ensures |Split(CellText(cell))| >= 4 ==> CellDay(cell) == FrenchCellDay(cell)
    ensures |Split(CellText(cell))| < 4 ==>
              FrenchCellDay(cell).None? && CellDay(cell) == ParseIsoDate(CellText(cell))
    ensures FrenchCellDay(cell).Some? ==> CellDay(cell) == FrenchCellDay(cell)
  {
    EchoVariantAgrees(CellText(cell));
    ShortTextHasNoDate(CellText(cell));
  }

  /** A missing timestamp never yields a date: `str(NaN)` is `"nan"`, which does not parse. */
  lemma MissingTimestampHasNoDate()
    ensures CellDay(None).None?
  {
    var text := CellText(None);
    assert text == "nan";
    assert |text| != 10;
    assert |Split(text)| < 4 by {
      assert Split(text) == [text] by {
        assert JoinWords([text]) == text;
        SplitJoinOne(text);
      }
    }
  }

  /**
   * A timestamp already written as `YYYY-MM-DD` is one word: this loader reads it as that
   * day, while the forecasting loader drops the row.
   */
  lemma IsoTimestampOnlyHere(y: nat, m: nat, d: nat)
    requires y < 10000 && ValidDate(y, m, d) && MinDay <= DayNumber(y, m, d) <= MaxDay
    ensures CellDay(Some(FormatIsoDate(y, m, d))) == Some(DayNumber(y, m, d))
    ensures FrenchCellDay(Some(FormatIsoDate(y, m, d))).None?
  {
    var text := FormatIsoDate(y, m, d);
    ParseFormatIsoDate(y, m, d);
    DigitsHaveNoSpace(Padded(y, 4));
    DigitsHaveNoSpace(Padded(m, 2));
    DigitsHaveNoSpace(Padded(d, 2));
    assert NoSpace(text);
    assert JoinWords([text]) == text;
    SplitJoinOne(text);
    CellDayAgainstFrench(Some(text));
  }

  // ---------------------------------------------------------------------------
  // load_data
  // ---------------------------------------------------------------------------

  /**
   * What `load_data` makes of one row, given the positions of `secteur`, `tstamp` and
   * `trafic_mbps`: it is dropped when it repeats the header, when its timestamp is missing or
   * gives no date, or when its traffic is missing or not a number; a missing sector is kept.
   */
  function ExploreRow(row: Row, s: nat, t: nat, f: nat, num: string -> Option<real>): (r: Option<Measurement>)
    ensures r.Some? <==> CellAt(row, s) != Some("secteur") && CellAt(row, t).Some?
                         && CellDay(CellAt(row, t)).Some? && CellAt(row, f).Some?
                         && num(CellAt(row, f).value).Some?
    ensures r.Some? ==> r.value.sector == CellAt(row, s) && r.value.sector != Some("secteur")
                        && Some(r.value.date) == CellDay(CellAt(row, t))
                        && MinDay <= r.value.date <= MaxDay
                        && Some(r.value.traffic) == num(CellAt(row, f).value)
  {
    if CellAt(row, s) == Some("secteur") || CellAt(row, t).None? then None
    else
      match CellDay(CellAt(row, t))
      case None => None
      case Some(day) =>
        match CellAt(row, f)
        case None => None
        case Some(text) =>
          match num(text)
          case None => None
          case Some(v) => Some(Measurement(CellAt(row, s), day, v))
  }

  function ExploreRowFn(cols: seq<nat>, num: string -> Option<real>): Row -> Option<Measurement>
    requires |cols| == 3
  {
    (row: Row) => ExploreRow(row, cols[0], cols[1], cols[2], num)
  }

  /** The loaded row, once its date and traffic are both present; the sector may be NaN. */
  function ToMeasurement(s: nat): Staged -> Option<Measurement> {
    (x: Staged) =>
      if x.date.Some? && x.traffic.Some?
      then Some(Measurement(CellAt(x.row, s), x.date.value, x.traffic.value)) else None
  }

  /**
   * The row steps of `load_data` (lines 40-51), composed into one step. The date is computed
   * for every row before `dropna(subset=['tstamp'])` rather than after it; a row's date depends
   * only on its own timestamp, so the rows kept are the same.
   */
  function ExploreSteps(s: nat, t: nat, f: nat, num: string -> Option<real>): Row -> Option<Measurement> {
    Then(Then(Then(Then(Then(Then(Then(
      DropRepeatedHeader(s),
      Stage()),
      AddDate(t, CellDay)),
      DropMissing(false, [t], false)),
      DropMissing(true, [], false)),
      ToNumeric(f, num)),
      DropMissing(false, [], true)),
      ToMeasurement(s))
  }

  lemma ExploreStepsChain(rows: seq<Row>, s: nat, t: nat, f: nat, num: string -> Option<real>)
    ensures
      Choose(Choose(Choose(Choose(Choose(Choose(Choose(Choose(rows,
        DropRepeatedHeader(s)),
        Stage()),
        AddDate(t, CellDay)),
        DropMissing(false, [t], false)),
        DropMissing(true, [], false)),
        ToNumeric(f, num)),
        DropMissing(false, [], true)),
        ToMeasurement(s))
      == Choose(rows, ExploreSteps(s, t, f, num))
  {
    var f1 := Then(DropRepeatedHeader(s), Stage());
    var f2 := Then(f1, AddDate(t, CellDay));
    var f3 := Then(f2, DropMissing(false, [t], false));
    var f4 := Then(f3, DropMissing(true, [], false));
    var f5 := Then(f4, ToNumeric(f, num));
    var f6 := Then(f5, DropMissing(false, [], true));
    ChooseThen(rows, DropRepeatedHeader(s), Stage());
    ChooseThen(rows, f1, AddDate(t, CellDay));
    ChooseThen(rows, f2, DropMissing(false, [t], false));
    ChooseThen(rows, f3, DropMissing(true, [], false));
    ChooseThen(rows, f4, ToNumeric(f, num));
    ChooseThen(rows, f5, DropMissing(false, [], true));
    ChooseThen(rows, f6, ToMeasurement(s));
  }

  lemma ExploreStepsRow(row: Row, s: nat, t: nat, f: nat, num: string -> Option<real>)
    ensures ExploreSteps(s, t, f, num)(row) == ExploreRow(row, s, t, f, num)
  {
    var f1 := Then(DropRepeatedHeader(s), Stage());
    var f2 := Then(f1, AddDate(t, CellDay));
    var f3 := Then(f2, DropMissing(false, [t], false));
    var f4 := Then(f3, DropMissing(true, [], false));
    var f5 := Then(f4, ToNumeric(f, num));
    var f6 := Then(f5, DropMissing(false, [], true));
    if CellAt(row, s) == Some("secteur") {
      assert f1(row) == None;
    } else {
      var x := Staged(row, CellDay(CellAt(row, t)), None);
      assert f1(row) == Some(Staged(row, None, None));
      assert f2(row) == Some(x);
      assert AllPresent(row, [t]) <==> CellAt(row, t).Some? by {
        assert [t][1..] == [];
      }
      if CellAt(row, t).None? {
        assert f3(row) == None;
      } else if x.date.None? {
        assert f3(row) == Some(x);
        assert f4(row) == None;
      } else {
        assert f4(row) == Some(x);
        var y := x.(traffic := match CellAt(row, f) case None => None case Some(text) => num(text));
        assert f5(row) == Some(y);
      }
    }
  }

  /** The row steps of `load_data`, run one after another, are `ExploreRow` on every row. */
  lemma ExploreStepsAreExploreRow(rows: seq<Row>, cols: seq<nat>, num: string -> Option<real>)
    requires |cols| == 3
    ensures
      Choose(Choose(Choose(Choose(Choose(Choose(Choose(Choose(rows,
        DropRepeatedHeader(cols[0])),
        Stage()),
        AddDate(cols[1], CellDay)),
        DropMissing(false, [cols[1]], false)),
        DropMissing(true, [], false)),
        ToNumeric(cols[2], num)),
        DropMissing(false, [], true)),
        ToMeasurement(cols[0]))
      == Choose(rows, ExploreRowFn(cols, num))
  {
    var s, t, f := cols[0], cols[1], cols[2];
    ExploreStepsChain(rows, s, t, f, num);
    forall i | 0 <= i < |rows| ensures ExploreSteps(s, t, f, num)(rows[i]) == ExploreRowFn(cols, num)(rows[i]) {
      ExploreStepsRow(rows[i], s, t, f, num);
    }
    ChooseCongruent(rows, ExploreSteps(s, t, f, num), ExploreRowFn(cols, num));
  }

  /**
   * `load_data`: skip the preamble, read the table, drop the empty columns, strip the column
   * names, then filter and convert the rows step by step, keeping file order. A missing column
   * raises `KeyError`.
   */
  function Explored(lines: seq<string>, readCsv: nat -> Table, num: string -> Option<real>): Result<seq<Measurement>> {
    var t := Clean(readCsv(HeaderIndex(lines)));
    match Resolve(t.columns, LoadColumns)
    case Failure(e) => Failure(e)
    case Success(cols) => Success(Choose(t.rows, ExploreRowFn(cols, num)))
  }

  /** The statements of `load_data`, run one after another. */
  method LoadData(lines: seq<string>, readCsv: nat -> Table, num: string -> Option<real>)
    returns (r: Result<seq<Measurement>>)
    ensures r == Explored(lines, readCsv, num)
  {
    var header := FindHeader(lines);
    var table := readCsv(header);
    table := DropEmptyColumns(table);
    table := StripColumnNames(table);
    var cols := Resolve(table.columns, LoadColumns);
    if cols.Failure? {
      return Failure(cols.error);
    }
    var s, t, f := cols.value[0], cols.value[1], cols.value[2];
    var rows := Choose(table.rows, DropRepeatedHeader(s));
    var staged := Choose(rows, Stage());
    staged := Choose(staged, AddDate(t, CellDay));
    staged := Choose(staged, DropMissing(false, [t], false));
    staged := Choose(staged, DropMissing(true, [], false));
    staged := Choose(staged, ToNumeric(f, num));
    staged := Choose(staged, DropMissing(false, [], true));
    var loaded := Choose(staged, ToMeasurement(s));
    ExploreStepsAreExploreRow(table.rows, cols.value, num);
    r := Success(loaded);
  }

  /**
   * `load_data` fails exactly when one of its three columns is missing after the clean-up,
   * with the `KeyError` of the first missing one; an export without data rows fails on
   * `secteur`.
   */
  lemma ExploredSpec(lines: seq<string>, readCsv: nat -> Table, num: string -> Option<real>)
    ensures var t := Clean(readCsv(HeaderIndex(lines)));
            var r := Explored(lines, readCsv, num);
            (r.Success? <==> forall k :: 0 <= k < |LoadColumns| ==> LoadColumns[k] in t.columns)
            && (r.Failure? ==> exists k :: 0 <= k < |LoadColumns| && LoadColumns[k] !in t.columns
                                 && r.error == "KeyError: " + LoadColumns[k]
                                 && forall l :: 0 <= l < k ==> LoadColumns[l] in t.columns)
    ensures |readCsv(HeaderIndex(lines)).rows| == 0 ==> Explored(lines, readCsv, num) == Failure("KeyError: secteur")
  {
    var t := Clean(readCsv(HeaderIndex(lines)));
    if |readCsv(HeaderIndex(lines)).rows| == 0 {
      assert t.columns == [];
      assert LoadColumns[0] !in t.columns;
    }
  }

  /**
   * On success every loaded row comes from a row of the table that `ExploreRow` keeps, and
   * every such row is loaded; no loaded row repeats the header or has a day out of range, and
   * there are never more loaded rows than table rows.
   */
  lemma ExploredRows(rows: seq<Row>, cols: seq<nat>, num: string -> Option<real>, m: Measurement)
    requires |cols| == 3
    ensures |Choose(rows, ExploreRowFn(cols, num))| <= |rows|
    ensures m in Choose(rows, ExploreRowFn(cols, num)) <==>
              exists i :: 0 <= i < |rows| && ExploreRow(rows[i], cols[0], cols[1], cols[2], num) == Some(m)
    ensures m in Choose(rows, ExploreRowFn(cols, num)) ==> m.sector != Some("secteur") && MinDay <= m.date <= MaxDay
  {
    ChooseMembers(rows, ExploreRowFn(cols, num), m);
  }

  /**
   * Every row the forecasting loader keeps, this loader keeps too, with the same sector, date
   * and traffic; the converse fails for rows with a missing sector or a one-word ISO date.
   */
  lemma ForecastRowsExplored(row: Row, s: nat, t: nat, f: nat, num: string -> Option<real>)
    ensures var o := ForecastTraffic.LoadRow(row, s, t, f, num);
            o.Some? ==> ExploreRow(row, s, t, f, num) == Some(Measurement(Some(o.value.sector), o.value.date, o.value.traffic))
  {
    var o := ForecastTraffic.LoadRow(row, s, t, f, num);
    if o.Some? {
      CellDayAgainstFrench(CellAt(row, t));
      if CellAt(row, t).None? {
        MissingTimestampHasNoDate();
      }
    }
  }
}
