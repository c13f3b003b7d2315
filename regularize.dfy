/**
 * Per-sector regularisation of the traffic history (the body of the sector loop in
 * forecast_traffic.py): duplicate dates are reduced to their first row, sectors with too few
 * dates are skipped, the series is laid on a 7-day grid starting at the earliest date, and the
 * grid points without an observation are filled by linear interpolation, then forward fill,
 * then backward fill.
 *
 * Dates are day numbers (day 0 is 1970-01-01) and traffic is an exact `real`.
 */
module Resample {
  import opened Wrappers

  datatype Point = Point(date: int, traffic: real)

  /** The grid step of `asfreq('7D')`, in days. */
  const Step: nat := 7

  /** A sector needs this many distinct dates to be kept. */
  const MinDates: nat := 10

  function Dates(s: seq<Point>): set<int> {
    set p | p in s :: p.date
  }

  predicate DistinctDates(s: seq<Point>) {
    forall i, j :: 0 <= i < j < |s| ==> s[i].date != s[j].date
  }

  lemma DatesCons(s: seq<Point>)
    requires s != []
    ensures Dates(s) == {s[0].date} + Dates(s[1..])
  {
    assert s == [s[0]] + s[1..];
    forall d | d in Dates(s) ensures d in {s[0].date} + Dates(s[1..]) {
      var p :| p in s && p.date == d;
      if p != s[0] {
        assert p in s[1..];
      }
    }
  }

  // ---------------------------------------------------------------------------
  // drop_duplicates('date'): the first row of each date stays
  // ---------------------------------------------------------------------------

  /** The rows of `s` whose date is new, that is, neither in `seen` nor on an earlier row. */
  function KeepFirstFrom(s: seq<Point>, seen: set<int>): (r: seq<Point>)
    ensures DistinctDates(r)
    ensures forall p :: p in r ==> p in s && p.date !in seen
    ensures Dates(r) == Dates(s) - seen
  {
    if s == [] then []
    else
      var rest := KeepFirstFrom(s[1..], seen + {s[0].date});
      DatesCons(s);
      if s[0].date in seen then
        var r := KeepFirstFrom(s[1..], seen);
        forall p | p in r ensures p in s {
          assert p in s[1..];
        }
        r
      else
        var r := [s[0]] + rest;
        DatesCons(r);
        assert r[1..] == rest;
        forall p | p in r ensures p in s {
          if p != s[0] {
            assert p in s[1..];
          }
        }
        r
  }

  function KeepFirst(s: seq<Point>): seq<Point> {
    KeepFirstFrom(s, {})
  }

  /** Position `j` holds the first row of `s` with date `d`. */
  predicate FirstOfDate(s: seq<Point>, j: int, d: int) {
    0 <= j < |s| && s[j].date == d && forall l :: 0 <= l < j ==> s[l].date != d
  }

  lemma {:induction false} KeepFirstFromIsFirst(s: seq<Point>, seen: set<int>, p: Point)
    requires p in KeepFirstFrom(s, seen)
    ensures exists j :: FirstOfDate(s, j, p.date) && s[j] == p
  {
    if s[0].date in seen {
      KeepFirstFromIsFirst(s[1..], seen, p);
      var j :| FirstOfDate(s[1..], j, p.date) && s[1..][j] == p;
      assert FirstOfDate(s, j + 1, p.date);
    } else if p == s[0] {
      assert FirstOfDate(s, 0, p.date);
    } else {
      var rest := KeepFirstFrom(s[1..], seen + {s[0].date});
      assert p in rest;
      KeepFirstFromIsFirst(s[1..], seen + {s[0].date}, p);
      var j :| FirstOfDate(s[1..], j, p.date) && s[1..][j] == p;
      assert FirstOfDate(s, j + 1, p.date);
    }
  }

  /**
   * De-duplication keeps every date once, and for each date the row that came first,
   * never a later one.
   */
  lemma KeepFirstSpec(s: seq<Point>)
    ensures DistinctDates(KeepFirst(s)) && Dates(KeepFirst(s)) == Dates(s)
    ensures forall p :: p in KeepFirst(s) ==> exists j :: FirstOfDate(s, j, p.date) && s[j] == p
  {
    forall p | p in KeepFirst(s) ensures exists j :: FirstOfDate(s, j, p.date) && s[j] == p {
      KeepFirstFromIsFirst(s, {}, p);
    }
  }

  // ---------------------------------------------------------------------------
  // extreme dates, and the number of distinct dates a span can hold
  // ---------------------------------------------------------------------------

  function MinDate(s: seq<Point>): (d: int)
    requires s != []
    ensures d in Dates(s) && forall p :: p in s ==> d <= p.date
  {
    DatesCons(s);
    if |s| == 1 then s[0].date
    else
      var m := MinDate(s[1..]);
      assert forall p :: p in s ==> p == s[0] || p in s[1..];
      if s[0].date <= m then s[0].date else m
  }

  function MaxDate(s: seq<Point>): (d: int)
    requires s != []
    ensures d in Dates(s) && forall p :: p in s ==> p.date <= d
  {
    DatesCons(s);
    if |s| == 1 then s[0].date
    else
      var m := MaxDate(s[1..]);
      assert forall p :: p in s ==> p == s[0] || p in s[1..];
      if s[0].date >= m then s[0].date else m
  }

  /** The whole days from `lo` to `hi`. */
  function Span(lo: int, hi: int): (r: set<int>)
    ensures forall x :: x in r <==> lo <= x <= hi
    ensures lo <= hi + 1 ==> |r| == hi - lo + 1
    decreases hi - lo
  {
    if lo > hi then {} else
      var r := Span(lo, hi - 1);
      assert hi !in r;
      r + {hi}
  }

  lemma {:induction false} SubsetSize(a: set<int>, b: set<int>)
    requires a <= b
    ensures |a| <= |b|
    decreases |a|
  {
    if a != {} {
      assert exists x :: x in a by {
        if forall x :: x !in a {
          assert false;
        }
      }
      var x :| x in a;
      SubsetSize(a - {x}, b - {x});
    }
  }

  lemma {:induction false} DistinctDatesSize(s: seq<Point>)
    requires DistinctDates(s)
    ensures |Dates(s)| == |s|
  {
    if s != [] {
      DatesCons(s);
      assert DistinctDates(s[1..]) by {
        forall i, j | 0 <= i < j < |s[1..]| ensures s[1..][i].date != s[1..][j].date {
          assert s[1..][i] == s[i + 1] && s[1..][j] == s[j + 1];
        }
      }
      DistinctDatesSize(s[1..]);
    }
  }

  /** `n` distinct whole days lie at least `n - 1` days apart end to end. */
  lemma DistinctDatesSpan(s: seq<Point>)
    requires DistinctDates(s) && s != []
    ensures MaxDate(s) - MinDate(s) >= |s| - 1
  {
    var lo, hi := MinDate(s), MaxDate(s);
    DistinctDatesSize(s);
    SubsetSize(Dates(s), Span(lo, hi));
  }

  // ---------------------------------------------------------------------------
  // set_index('date').asfreq('7D')
  // ---------------------------------------------------------------------------

  /** The grid lo, lo + 7, ..., up to the last such date not after hi. */
  function GridLength(lo: int, hi: int): (n: nat)
    requires lo <= hi
    ensures n >= 1 && lo + Step * (n - 1) <= hi < lo + Step * n
  {
    (hi - lo) / Step + 1
  }

  function GridDate(lo: int, k: nat): int {
    lo + Step * k
  }

  /** The traffic recorded on date `d`, if a row carries that date (the first such row). */
  function Lookup(s: seq<Point>, d: int): (r: Option<real>)
    ensures r.Some? ==> exists p :: p in s && p.date == d && p.traffic == r.value
    ensures r.None? <==> d !in Dates(s)
  {
    if s == [] then None
    else
      DatesCons(s);
      if s[0].date == d then Some(s[0].traffic)
      else
        var r := Lookup(s[1..], d);
        assert r.Some? ==> exists p :: p in s[1..] && p.date == d && p.traffic == r.value;
        r
  }

  /** The series laid on the grid: a grid point with no row of that date is NaN. */
  function Reindex(s: seq<Point>, lo: int, n: nat): (v: seq<Option<real>>)
    ensures |v| == n && forall k :: 0 <= k < n ==> v[k] == Lookup(s, GridDate(lo, k))
  {
    seq(n, k requires 0 <= k < n => Lookup(s, GridDate(lo, k)))
  }

  // ---------------------------------------------------------------------------
  // interpolate(), ffill(), bfill()
  // ---------------------------------------------------------------------------

  /** The last position before `k` that holds a value. */
  function PrevValid(v: seq<Option<real>>, k: nat): (r: Option<nat>)
    requires k <= |v|
    ensures r.Some? ==> r.value < k && v[r.value].Some? && forall j :: r.value < j < k ==> v[j].None?
    ensures r.None? ==> forall j :: 0 <= j < k ==> v[j].None?
  {
    if k == 0 then None else if v[k - 1].Some? then Some(k - 1) else PrevValid(v, k - 1)
  }

  /** The first position after `k` that holds a value. */
  function NextValid(v: seq<Option<real>>, k: nat): (r: Option<nat>)
    requires k < |v|
    ensures r.Some? ==> k < r.value < |v| && v[r.value].Some? && forall j :: k < j < r.value ==> v[j].None?
    ensures r.None? ==> forall j :: k < j < |v| ==> v[j].None?
    decreases |v| - k
  {
    if k + 1 == |v| then None else if v[k + 1].Some? then Some(k + 1) else NextValid(v, k + 1)
  }

  /**
   * pandas' default linear interpolation at position `k`: a value stays; a gap between two
   * values gets the point on the straight line between them (positions equally spaced); a gap
   * after the last value repeats it; a gap before the first value stays NaN.
   */
  function InterpolateAt(v: seq<Option<real>>, k: nat): Option<real>
    requires k < |v|
  {
    if v[k].Some? then v[k]
    else
      match PrevValid(v, k)
      case None => None
      case Some(p) =>
        match NextValid(v, k)
        case None => v[p]
        case Some(q) =>
          var a, b := v[p].value, v[q].value;
          Some(Lerp(a, b, (k - p) as real, (q - p) as real))
  }

  /** The point `i` steps along a straight line that goes from `a` to `b` in `w` steps. */
  function Lerp(a: real, b: real, i: real, w: real): real
    requires w > 0.0
  {
    a + (b - a) * (i / w)
  }

  function Interpolate(v: seq<Option<real>>): (r: seq<Option<real>>)
    ensures |r| == |v| && forall k :: 0 <= k < |v| ==> r[k] == InterpolateAt(v, k)
  {
    seq(|v|, k requires 0 <= k < |v| => InterpolateAt(v, k))
  }

  /** `ffill()`: a NaN takes the last value before it. */
  function ForwardFill(v: seq<Option<real>>): (r: seq<Option<real>>)
    ensures |r| == |v|
    ensures forall k :: 0 <= k < |v| && v[k].Some? ==> r[k] == v[k]
    ensures forall k :: 0 <= k < |v| && v[k].None? ==>
              r[k] == (match PrevValid(v, k) case None => None case Some(p) => v[p])
  {
    seq(|v|, k requires 0 <= k < |v| =>
      if v[k].Some? then v[k] else match PrevValid(v, k) case None => None case Some(p) => v[p])
  }

  /** `bfill()`: a NaN takes the first value after it. */
  function BackwardFill(v: seq<Option<real>>): (r: seq<Option<real>>)
    ensures |r| == |v|
    ensures forall k :: 0 <= k < |v| && v[k].Some? ==> r[k] == v[k]
    ensures forall k :: 0 <= k < |v| && v[k].None? ==>
              r[k] == (match NextValid(v, k) case None => None case Some(q) => v[q])
  {
    seq(|v|, k requires 0 <= k < |v| =>
      if v[k].Some? then v[k] else match NextValid(v, k) case None => None case Some(q) => v[q])
  }

  /** `interpolate().ffill().bfill()`. */
  function FillGaps(v: seq<Option<real>>): (r: seq<Option<real>>)
    ensures |r| == |v|
  {
    BackwardFill(ForwardFill(Interpolate(v)))
  }

  predicate Complete(v: seq<Option<real>>) {
    forall k :: 0 <= k < |v| ==> v[k].Some?
  }

  /** Interpolation fills every position from the first value on. */
  lemma InterpolateFillsAfterFirst(v: seq<Option<real>>, first: nat, k: nat)
    requires first <= k < |v| && v[first].Some?
    ensures Interpolate(v)[k].Some?
  {
    if v[k].None? {
      assert PrevValid(v, k).Some?;
      match NextValid(v, k)
      case None =>
      case Some(q) =>
    }
  }

  /**
   * After the three fills no position is NaN, as long as the series holds one value at all;
   * positions that held a value keep it.
   */
  lemma FillGapsSpec(v: seq<Option<real>>)
    ensures forall k :: 0 <= k < |v| && v[k].Some? ==> FillGaps(v)[k] == v[k]
    ensures (exists k :: 0 <= k < |v| && v[k].Some?) ==> Complete(FillGaps(v))
  {
    var a := Interpolate(v);
    var b := ForwardFill(a);
    if exists k :: 0 <= k < |v| && v[k].Some? {
      var first :| 0 <= first < |v| && v[first].Some?;
      forall k | first <= k < |v| ensures a[k].Some? {
        InterpolateFillsAfterFirst(v, first, k);
      }
      assert b[first].Some?;
      forall k | 0 <= k < |v| ensures FillGaps(v)[k].Some? {
        if b[k].None? {
          assert k < first;
          assert NextValid(b, k).Some?;
        }
      }
    }
  }

  lemma ScaleBetween(d: real, t: real)
    requires 0.0 <= t <= 1.0
    ensures d >= 0.0 ==> 0.0 <= d * t <= d
    ensures d <= 0.0 ==> d <= d * t <= 0.0
  {
    if d >= 0.0 {
      assert d * t <= d * 1.0;
    } else {
      assert d * t >= d * 1.0;
    }
  }

  lemma LerpBetween(a: real, b: real, i: real, w: real)
    requires 0.0 < i < w
    ensures (a <= Lerp(a, b, i, w) <= b) || (b <= Lerp(a, b, i, w) <= a)
  {
    assert 0.0 <= i / w <= 1.0;
    ScaleBetween(b - a, i / w);
  }

  lemma LerpStep(a: real, b: real, i: real, w: real)
    requires w > 0.0
    ensures Lerp(a, b, i, w) - Lerp(a, b, i - 1.0, w) == (b - a) / w
    ensures Lerp(a, b, 0.0, w) == a
  {
    var d := b - a;
    assert i / w - (i - 1.0) / w == 1.0 / w;
    assert d * (i / w) - d * ((i - 1.0) / w) == d * (i / w - (i - 1.0) / w);
  }

  /** The value interpolation gives a position inside a gap. */
  lemma InterpolateAtGap(v: seq<Option<real>>, k: nat, p: nat, q: nat)
    requires k < |v| && v[k].None?
    requires PrevValid(v, k) == Some(p) && NextValid(v, k) == Some(q)
    ensures InterpolateAt(v, k) == Some(Lerp(v[p].value, v[q].value, (k - p) as real, (q - p) as real))
  {
  }

  /** A gap between two values is filled with a value between them. */
  lemma InterpolateBetween(v: seq<Option<real>>, k: nat, p: nat, q: nat)
    requires k < |v| && v[k].None?
    requires PrevValid(v, k) == Some(p) && NextValid(v, k) == Some(q)
    ensures var a, b, x := v[p].value, v[q].value, InterpolateAt(v, k).value;
            (a <= x <= b) || (b <= x <= a)
  {
    InterpolateAtGap(v, k, p, q);
    LerpBetween(v[p].value, v[q].value, (k - p) as real, (q - p) as real);
  }

  /**
   * Across a gap the filled values climb in equal steps: each differs from the one before it
   * by the gap's total change divided by its width.
   */
  lemma InterpolateLinear(v: seq<Option<real>>, k: nat, p: nat, q: nat)
    requires k < |v| && v[k].None?
    requires PrevValid(v, k) == Some(p) && NextValid(v, k) == Some(q)
    ensures var a, b := v[p].value, v[q].value;
            InterpolateAt(v, k).value - InterpolateAt(v, k - 1).value == (b - a) / ((q - p) as real)
  {
    var a, b := v[p].value, v[q].value;
    var w := (q - p) as real;
    var i := (k - p) as real;
    InterpolateAtGap(v, k, p, q);
    LerpStep(a, b, i, w);
    if k - 1 != p {
      assert v[k - 1].None?;
      assert PrevValid(v, k - 1) == Some(p);
      NextValidSkip(v, k - 1);
      InterpolateAtGap(v, k - 1, p, q);
      assert ((k - 1 - p) as real) == i - 1.0;
    } else {
      assert i - 1.0 == 0.0;
    }
  }

  lemma NextValidSkip(v: seq<Option<real>>, j: nat)
    requires j + 1 < |v| && v[j + 1].None?
    ensures NextValid(v, j) == NextValid(v, j + 1)
  {
  }

  /** After the last value, interpolation repeats it. */
  lemma InterpolateTrailing(v: seq<Option<real>>, k: nat, p: nat)
    requires p < k < |v| && v[p].Some?
    requires forall j :: p < j < |v| ==> v[j].None?
    ensures InterpolateAt(v, k) == v[p]
  {
    assert PrevValid(v, k) == Some(p) by {
      PrevValidSkipsGap(v, p, k);
    }
  }

  lemma {:induction false} PrevValidSkipsGap(v: seq<Option<real>>, p: nat, k: nat)
    requires p < k <= |v| && v[p].Some?
    requires forall j :: p < j < k ==> v[j].None?
    ensures PrevValid(v, k) == Some(p)
    decreases k
  {
    if k - 1 != p {
      PrevValidSkipsGap(v, p, k - 1);
    }
  }

  // ---------------------------------------------------------------------------
  // the whole per-sector step
  // ---------------------------------------------------------------------------

  /** A regular series: `traffic[k]` is the traffic on day `start + 7 * k`. */
  datatype Series = Series(start: int, traffic: seq<real>)

  function Values(v: seq<Option<real>>): (r: seq<real>)
    requires Complete(v)
    ensures |r| == |v| && forall k :: 0 <= k < |v| ==> r[k] == v[k].value
  {
    seq(|v|, k requires 0 <= k < |v| => v[k].value)
  }

  /** The filled grid values of a set of rows with distinct dates. */
  function FilledGrid(kept: seq<Point>): (v: seq<Option<real>>)
    requires kept != []
    ensures |v| == GridLength(MinDate(kept), MaxDate(kept))
    ensures Complete(v)
  {
    var lo := MinDate(kept);
    var raw := Reindex(kept, lo, GridLength(lo, MaxDate(kept)));
    assert raw[0].Some?;
    FillGapsSpec(raw);
    FillGaps(raw)
  }

  /**
   * The regular series of a sector's de-duplicated rows: the 7-day grid from the earliest date,
   * filled. Ten distinct dates span at least nine days, so the grid has at least two points.
   */
  function SeriesOf(kept: seq<Point>): (r: Series)
    requires DistinctDates(kept) && |kept| >= MinDates
    ensures |r.traffic| >= 2
  {
    DistinctDatesSpan(kept);
    Series(MinDate(kept), Values(FilledGrid(kept)))
  }

  /**
   * One sector's rows (in table order) turned into the regular series the forecaster gets,
   * or `None` when the sector has fewer than ten distinct dates.
   */
  function Regularize(s: seq<Point>): (r: Option<Series>)
    ensures r.None? <==> |KeepFirst(s)| < MinDates
    ensures r.Some? ==> |r.value.traffic| >= 2
  {
    var kept := KeepFirst(s);
    if |kept| < MinDates then None else Some(SeriesOf(kept))
  }

  /**
   * The regular series starts on the sector's earliest date and its last point is the last
   * 7-day step not after the latest date; every grid date that carries a row keeps that row's
   * traffic (the first row of that date).
   */
  lemma RegularizeGrid(s: seq<Point>)
    requires Regularize(s).Some?
    ensures var r := Regularize(s).value; var n := |r.traffic|;
            r.start == MinDate(KeepFirst(s)) && r.start in Dates(s)
            && (forall p :: p in s ==> r.start <= p.date)
            && GridDate(r.start, n - 1) <= MaxDate(KeepFirst(s)) < GridDate(r.start, n)
    ensures var r := Regularize(s).value;
            forall k :: 0 <= k < |r.traffic| && GridDate(r.start, k) in Dates(s) ==>
              exists j :: FirstOfDate(s, j, GridDate(r.start, k)) && r.traffic[k] == s[j].traffic
  {
    var kept := KeepFirst(s);
    KeepFirstSpec(s);
    var r := Regularize(s).value;
    var lo := MinDate(kept);
    var raw := Reindex(kept, lo, GridLength(lo, MaxDate(kept)));
    FillGapsSpec(raw);
    forall p | p in s ensures r.start <= p.date {
      assert p.date in Dates(s);
      var q :| q in kept && q.date == p.date;
    }
    forall k | 0 <= k < |r.traffic| && GridDate(r.start, k) in Dates(s)
      ensures exists j :: FirstOfDate(s, j, GridDate(r.start, k)) && r.traffic[k] == s[j].traffic
    {
      var d := GridDate(r.start, k);
      assert raw[k].Some?;
      var p :| p in kept && p.date == d && p.traffic == raw[k].value;
      var j :| FirstOfDate(s, j, p.date) && s[j] == p;
    }
  }

  /** The sector's regularised series ends in the value the loop records as ground truth. */
  function LastTraffic(r: Series): real
    requires |r.traffic| >= 1
  {
    r.traffic[|r.traffic| - 1]
  }
}
