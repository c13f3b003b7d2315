/**
 * The table `read_csv` produces and the column-level clean-up the loaders apply to it.
 * A cell is `None` where pandas holds NaN (an empty field, or a field missing at the end of a
 * short line) and `Some(text)` otherwise.
 */
module Frame {
  import opened Wrappers
  import opened Text

  type Row = seq<Option<string>>

  datatype Table = Table(columns: seq<string>, rows: seq<Row>)

  /** The cell of `row` in column `j`; a line with fewer fields than the header reads as NaN there. */
  function CellAt(row: Row, j: nat): Option<string> {
    if j < |row| then row[j] else None
  }

  /** `str(cell)`: the text of a cell, `"nan"` for a missing one. */
  function CellText(cell: Option<string>): (s: string)
    ensures cell.Some? ==> s == cell.value
    ensures cell.None? ==> s == "nan"
  {
    match cell
    case Some(text) => text
    case None => "nan"
  }

  // ---------------------------------------------------------------------------
  // df.dropna(axis=1, how='all')
  // ---------------------------------------------------------------------------

  /** Column `j` holds at least one value. */
  predicate HasValue(rows: seq<Row>, j: nat) {
    exists i :: 0 <= i < |rows| && CellAt(rows[i], j).Some?
  }

  /** The indices from `j` on of the columns that hold a value, in increasing order. */
  function KeptFrom(t: Table, j: nat): (keep: seq<nat>)
    requires j <= |t.columns|
    ensures forall k :: 0 <= k < |keep| ==> j <= keep[k] < |t.columns| && HasValue(t.rows, keep[k])
    ensures forall k, l :: 0 <= k < l < |keep| ==> keep[k] < keep[l]
    ensures forall c :: j <= c < |t.columns| && HasValue(t.rows, c) ==> c in keep
    decreases |t.columns| - j
  {
    if j == |t.columns| then []
    else if HasValue(t.rows, j) then [j] + KeptFrom(t, j + 1)
    else KeptFrom(t, j + 1)
  }

  /** The table restricted to the columns listed in `keep`, in that order. */
  function Project(t: Table, keep: seq<nat>): (r: Table)
    requires forall k :: 0 <= k < |keep| ==> keep[k] < |t.columns|
    ensures |r.columns| == |keep| && |r.rows| == |t.rows|
    ensures forall k :: 0 <= k < |keep| ==> r.columns[k] == t.columns[keep[k]]
    ensures forall i, k :: 0 <= i < |t.rows| && 0 <= k < |keep| ==>
              |r.rows[i]| == |keep| && r.rows[i][k] == CellAt(t.rows[i], keep[k])
  {
    Table(seq(|keep|, k requires 0 <= k < |keep| => t.columns[keep[k]]),
          seq(|t.rows|, i requires 0 <= i < |t.rows| =>
            seq(|keep|, k requires 0 <= k < |keep| => CellAt(t.rows[i], keep[k]))))
  }

  /**
   * `dropna(axis=1, how='all')`: the columns that are NaN in every row are dropped, the others
   * kept in order with their cells. With no rows at all, every column goes.
   */
  function DropEmptyColumns(t: Table): (r: Table)
    ensures |r.rows| == |t.rows|
    ensures forall k :: 0 <= k < |r.columns| ==> HasValue(r.rows, k)
    ensures forall c :: 0 <= c < |t.columns| && HasValue(t.rows, c) ==> t.columns[c] in r.columns
    ensures forall name :: name in r.columns ==> name in t.columns
    ensures |t.rows| == 0 ==> r.columns == []
    ensures var keep := KeptFrom(t, 0);
            |r.columns| == |keep| && (forall k :: 0 <= k < |keep| ==> r.columns[k] == t.columns[keep[k]])
            && (forall i :: 0 <= i < |r.rows| ==> |r.rows[i]| == |keep|)
            && forall i, k :: 0 <= i < |t.rows| && 0 <= k < |keep| ==> CellAt(r.rows[i], k) == CellAt(t.rows[i], keep[k])
  {
    var keep := KeptFrom(t, 0);
    KeptColumns(t, keep);
    Project(t, keep)
  }

  /** The projection on the columns that hold a value keeps exactly those columns. */
  lemma KeptColumns(t: Table, keep: seq<nat>)
    requires keep == KeptFrom(t, 0)
    ensures var r := Project(t, keep);
            (forall k :: 0 <= k < |r.columns| ==> HasValue(r.rows, k))
            && (forall c :: 0 <= c < |t.columns| && HasValue(t.rows, c) ==> t.columns[c] in r.columns)
            && (forall name :: name in r.columns ==> name in t.columns)
            && (|t.rows| == 0 ==> r.columns == [])
  {
    KeptHaveValues(t, keep);
    ValuedAreKept(t, keep);
    KeptNamesExist(t, keep);
  }

  lemma KeptHaveValues(t: Table, keep: seq<nat>)
    requires keep == KeptFrom(t, 0)
    ensures var r := Project(t, keep); forall k :: 0 <= k < |r.columns| ==> HasValue(r.rows, k)
  {
    var r := Project(t, keep);
    forall k | 0 <= k < |r.columns| ensures HasValue(r.rows, k) {
      var i :| 0 <= i < |t.rows| && CellAt(t.rows[i], keep[k]).Some?;
      assert CellAt(r.rows[i], k).Some?;
    }
  }

  lemma ValuedAreKept(t: Table, keep: seq<nat>)
    requires keep == KeptFrom(t, 0)
    ensures var r := Project(t, keep);
            forall c :: 0 <= c < |t.columns| && HasValue(t.rows, c) ==> t.columns[c] in r.columns
  {
    var r := Project(t, keep);
    forall c | 0 <= c < |t.columns| && HasValue(t.rows, c) ensures t.columns[c] in r.columns {
      var k :| 0 <= k < |keep| && keep[k] == c;
      assert r.columns[k] == t.columns[c];
    }
  }

  lemma KeptNamesExist(t: Table, keep: seq<nat>)
    requires keep == KeptFrom(t, 0)
    ensures var r := Project(t, keep); forall name :: name in r.columns ==> name in t.columns
  {
    var r := Project(t, keep);
    forall name | name in r.columns ensures name in t.columns {
      var k :| 0 <= k < |r.columns| && r.columns[k] == name;
      assert t.columns[keep[k]] == name;
    }
  }

  // ---------------------------------------------------------------------------
  // df.columns = [c.strip() for c in df.columns]
  // ---------------------------------------------------------------------------

  function StripColumnNames(t: Table): (r: Table)
    ensures r.rows == t.rows && |r.columns| == |t.columns|
    ensures forall k :: 0 <= k < |t.columns| ==> r.columns[k] == Strip(t.columns[k])
    ensures forall k :: 0 <= k < |r.columns| ==>
              r.columns[k] == [] || (!IsSpace(r.columns[k][0]) && !IsSpace(r.columns[k][|r.columns[k]| - 1]))
  {
    Table(seq(|t.columns|, k requires 0 <= k < |t.columns| => Strip(t.columns[k])), t.rows)
  }

  /** The column clean-up all three loaders run right after `read_csv`. */
  function Clean(t: Table): (r: Table)
    ensures |r.rows| == |t.rows|
    ensures forall k :: 0 <= k < |r.columns| ==> HasValue(r.rows, k)
    ensures |t.rows| == 0 ==> r.columns == []
  {
    StripColumnNames(DropEmptyColumns(t))
  }

  // ---------------------------------------------------------------------------
  // df['name']
  // ---------------------------------------------------------------------------

  /** The position of the first column called `name`, if there is one. */
  function ColumnIndex(columns: seq<string>, name: string): (r: Option<nat>)
    ensures r.Some? ==> r.value < |columns| && columns[r.value] == name
                        && forall j :: 0 <= j < r.value ==> columns[j] != name
    ensures r.None? <==> name !in columns
  {
    if columns == [] then None
    else if columns[0] == name then Some(0)
    else
      match ColumnIndex(columns[1..], name)
      case None => None
      case Some(j) => Some(j + 1)
  }

  /**
   * The column names the script touches, in the order it touches them, resolved to positions;
   * the first one that is missing raises `KeyError`.
   */
  function Resolve(columns: seq<string>, names: seq<string>): (r: Result<seq<nat>>)
    ensures r.Success? <==> forall k :: 0 <= k < |names| ==> names[k] in columns
    ensures r.Success? ==> |r.value| == |names|
    ensures r.Success? ==> forall k :: 0 <= k < |names| ==> r.value[k] < |columns| && columns[r.value[k]] == names[k]
    ensures r.Failure? ==> exists k :: 0 <= k < |names| && names[k] !in columns
                             && r.error == "KeyError: " + names[k]
                             && forall l :: 0 <= l < k ==> names[l] in columns
  {
    if names == [] then Success([])
    else
      match ColumnIndex(columns, names[0])
      case None => Failure("KeyError: " + names[0])
      case Some(j) =>
        match Resolve(columns, names[1..])
        case Failure(e) =>
          var k :| 0 <= k < |names[1..]| && names[1..][k] !in columns && e == "KeyError: " + names[1..][k]
                   && forall l :: 0 <= l < k ==> names[1..][l] in columns;
          assert names[k + 1] !in columns;
          Failure(e)
        case Success(js) => Success([j] + js)
  }

  // ---------------------------------------------------------------------------
  // row filters and column assignments: one output row per input row at most
  // ---------------------------------------------------------------------------

  /**
   * The rows `f` keeps, each replaced by what `f` makes of it, in order. Boolean masks
   * (`df[cond]`, `dropna(subset=...)`) and per-row column assignments are all of this form.
   */
  function Choose<T, U>(s: seq<T>, f: T -> Option<U>): (r: seq<U>)
    ensures |r| <= |s|
  {
    if s == [] then [] else
      match f(s[0])
      case Some(u) => [u] + Choose(s[1..], f)
      case None => Choose(s[1..], f)
  }

  /** What `Choose` returns is exactly the images of the rows `f` keeps. */
  lemma {:induction false} ChooseMembers<T, U>(s: seq<T>, f: T -> Option<U>, u: U)
    ensures u in Choose(s, f) <==> exists i :: 0 <= i < |s| && f(s[i]) == Some(u)
  {
    if s != [] {
      ChooseMembers(s[1..], f, u);
      if exists i :: 0 <= i < |s[1..]| && f(s[1..][i]) == Some(u) {
        var i :| 0 <= i < |s[1..]| && f(s[1..][i]) == Some(u);
        assert f(s[i + 1]) == Some(u);
      }
      if exists i :: 0 <= i < |s| && f(s[i]) == Some(u) {
        var i :| 0 <= i < |s| && f(s[i]) == Some(u);
        if i > 0 {
          assert f(s[1..][i - 1]) == Some(u);
        }
      }
    }
  }

  /** Two steps run one after the other, as one step. */
  function Then<T, U, V>(f: T -> Option<U>, g: U -> Option<V>): T -> Option<V> {
    (x: T) => match f(x) case None => None case Some(y) => g(y)
  }

  /** Running two steps over a table is running their composition once. */
  lemma {:induction false} ChooseThen<T, U, V>(s: seq<T>, f: T -> Option<U>, g: U -> Option<V>)
    ensures Choose(Choose(s, f), g) == Choose(s, Then(f, g))
  {
    if s != [] {
      ChooseThen(s[1..], f, g);
      match f(s[0])
      case None =>
      case Some(y) =>
        assert Choose(s, f) == [y] + Choose(s[1..], f);
        assert ([y] + Choose(s[1..], f))[1..] == Choose(s[1..], f);
    }
  }

  /** Steps that agree on every row of the table give the same result. */
  lemma {:induction false} ChooseCongruent<T, U>(s: seq<T>, f: T -> Option<U>, g: T -> Option<U>)
    requires forall i :: 0 <= i < |s| ==> f(s[i]) == g(s[i])
    ensures Choose(s, f) == Choose(s, g)
  {
    if s != [] {
      assert forall i :: 0 <= i < |s[1..]| ==> s[1..][i] == s[i + 1];
      ChooseCongruent(s[1..], f, g);
    }
  }

  /** Appending rows appends their images. */
  lemma {:induction false} ChooseAppend<T, U>(s: seq<T>, t: seq<T>, f: T -> Option<U>)
    ensures Choose(s + t, f) == Choose(s, f) + Choose(t, f)
  {
    if s != [] {
      assert (s + t)[1..] == s[1..] + t;
      ChooseAppend(s[1..], t, f);
    } else {
      assert s + t == t;
    }
  }

  /** Nothing is kept exactly when the step drops every row. */
  lemma {:induction false} ChooseEmpty<T, U>(s: seq<T>, f: T -> Option<U>)
    ensures Choose(s, f) == [] <==> forall i :: 0 <= i < |s| ==> f(s[i]).None?
  {
    if s != [] {
      ChooseEmpty(s[1..], f);
      assert forall i :: 1 <= i < |s| ==> s[i] == s[1..][i - 1];
    }
  }

  /** A step that keeps every row maps the table row by row. */
  lemma {:induction false} ChooseKeepsAll<T, U>(s: seq<T>, f: T -> Option<U>)
    requires forall i :: 0 <= i < |s| ==> f(s[i]).Some?
    ensures |Choose(s, f)| == |s|
    ensures forall i :: 0 <= i < |s| ==> Choose(s, f)[i] == f(s[i]).value
  {
    if s != [] {
      assert forall i :: 0 <= i < |s[1..]| ==> s[1..][i] == s[i + 1];
      ChooseKeepsAll(s[1..], f);
    }
  }

  /** A prefix one element longer is the shorter prefix and that element. */
  lemma PrefixSnoc<T>(s: seq<T>, i: nat)
    requires i < |s|
    ensures s[..i + 1] == s[..i] + [s[i]]
  {
  }

  /** A single row is kept, as its image, exactly when the step keeps it. */
  lemma ChooseSingle<T, U>(x: T, f: T -> Option<U>)
    ensures f(x).None? ==> Choose([x], f) == []
    ensures f(x).Some? ==> Choose([x], f) == [f(x).value]
  {
    assert [x][1..] == [];
  }
}
