/**
 * The row-level steps the three loaders apply after the column clean-up: dropping repeated
 * header rows, deriving the `date` column from `tstamp`, coercing `trafic_mbps` to a number,
 * and dropping rows with a missing value. Each step keeps or drops a row and may fill in a
 * derived column, so each is a function handed to `Frame.Choose`.
 */
module Cleaning {
  import opened Wrappers
  import opened Text
  import opened Calendar
  import opened FrenchDate
  import opened Frame
  import opened Sorting

  /** A table row together with the `date` and numeric `trafic_mbps` columns derived from it. */
  datatype Staged = Staged(row: Row, date: Option<int>, traffic: Option<real>)

  /** A loaded measurement: sector name, day number and traffic in Mbit/s. */
  datatype Observation = Observation(sector: string, date: int, traffic: real)

  /**
   * `pd.to_datetime(df['tstamp'].apply(parse_french_date), errors='coerce')` on one cell:
   * `str(cell)` is read as a French verbose date and the ISO text it gives is parsed; anything
   * else is NaT.
   */
  function FrenchCellDay(cell: Option<string>): (d: Option<int>)
    ensures d.Some? ==> MinDay <= d.value <= MaxDay
    ensures |Split(CellText(cell))| < 4 ==> d.None?
  {
    match ParseFrenchDate(CellText(cell))
    case None => None
    case Some(iso) => ParseIsoDate(iso)
  }

  /** `df = df[df['secteur'] != 'secteur']`: a row repeating the header is dropped; NaN != 'secteur'. */
  function DropRepeatedHeader(s: nat): Row -> Option<Row> {
    (row: Row) => if CellAt(row, s) == Some("secteur") then None else Some(row)
  }

  /** A row enters the staged form with no derived column yet. */
  function Stage(): Row -> Option<Staged> {
    (row: Row) => Some(Staged(row, None, None))
  }

  /** `df['date'] = <day of the tstamp cell>`. */
  function AddDate(t: nat, day: Option<string> -> Option<int>): Staged -> Option<Staged> {
    (x: Staged) => Some(x.(date := day(CellAt(x.row, t))))
  }

  /** `df['trafic_mbps'] = pd.to_numeric(df['trafic_mbps'], errors='coerce')`. */
  function ToNumeric(f: nat, num: string -> Option<real>): Staged -> Option<Staged> {
    (x: Staged) => Some(x.(traffic := match CellAt(x.row, f) case None => None case Some(text) => num(text)))
  }

  /** Every cell of `row` in the columns `cells` holds a value. */
  predicate AllPresent(row: Row, cells: seq<nat>) {
    cells == [] || (CellAt(row, cells[0]).Some? && AllPresent(row, cells[1..]))
  }

  /** `dropna(subset=[...])` on the date, on the raw cells in `cells`, and on the numeric traffic. */
  function DropMissing(date: bool, cells: seq<nat>, traffic: bool): Staged -> Option<Staged> {
    (x: Staged) =>
      if (date ==> x.date.Some?) && (traffic ==> x.traffic.Some?) && AllPresent(x.row, cells)
      then Some(x) else None
  }

  /** The loaded row, once date, traffic and sector are all present. */
  function ToObservation(s: nat): Staged -> Option<Observation> {
    (x: Staged) =>
      if x.date.Some? && x.traffic.Some? && CellAt(x.row, s).Some?
      then Some(Observation(CellAt(x.row, s).value, x.date.value, x.traffic.value)) else None
  }

  /** The key of `sort_values(['secteur', 'date'])`: sector in code-point order, then date. */
  predicate SectorDateLe(a: Observation, b: Observation) {
    StrLt(a.sector, b.sector) || (a.sector == b.sector && a.date <= b.date)
  }

  /** Sector-then-date is a key order, and two rows share a key exactly when sector and date agree. */
  lemma SectorDateKeyOrder()
    ensures IsKeyOrder(SectorDateLe)
    ensures forall a, b :: SameKey(SectorDateLe, a, b) <==> a.sector == b.sector && a.date == b.date
  {
    forall a: Observation, b: Observation ensures SectorDateLe(a, b) || SectorDateLe(b, a) {
      StrLtTotal(a.sector, b.sector);
    }
    forall a: Observation, b: Observation, c: Observation | SectorDateLe(a, b) && SectorDateLe(b, c)
      ensures SectorDateLe(a, c)
    {
      if StrLt(a.sector, b.sector) && StrLt(b.sector, c.sector) {
        StrLtTransitive(a.sector, b.sector, c.sector);
      }
    }
    forall a: Observation, b: Observation | SameKey(SectorDateLe, a, b)
      ensures a.sector == b.sector && a.date == b.date
    {
      StrLtAsymmetric(a.sector, b.sector);
      if StrLt(a.sector, b.sector) {
        StrLtIrreflexive(b.sector);
      }
    }
  }
}
