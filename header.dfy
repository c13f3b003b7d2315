/**
 * Locating the header row of the traffic export. The file starts with free-form preamble
 * lines; the table header is the first line that mentions both `secteur` and `tstamp`, in
 * any letter case. The same scan appears in all three scripts.
 */
module Header {
  import opened Text

  /** `'secteur' in line.lower() and 'tstamp' in line.lower()`. */
  predicate HasMarkers(line: string) {
    Contains(Lower(line), "secteur") && Contains(Lower(line), "tstamp")
  }

  /** Whether a line is a header line does not depend on its letter case. */
  lemma HasMarkersIgnoresCase(line: string)
    ensures HasMarkers(Lower(line)) == HasMarkers(line)
  {
    LowerIdempotent(line);
  }

  /** The index of the first line from `i` on that carries both markers, or 0 when none does. */
  function HeaderFrom(lines: seq<string>, i: nat): (idx: nat)
    requires i <= |lines|
    decreases |lines| - i
  {
    if i == |lines| then 0 else if HasMarkers(lines[i]) then i else HeaderFrom(lines, i + 1)
  }

  /**
   * The number of preamble lines to skip: the index of the first line carrying both
   * markers, or 0 when no line does (the table is then read from the top).
   */
  function HeaderIndex(lines: seq<string>): nat {
    HeaderFrom(lines, 0)
  }

  lemma {:induction false} HeaderFromSpec(lines: seq<string>, i: nat)
    requires i <= |lines|
    ensures (exists k :: i <= k < |lines| && HasMarkers(lines[k])) ==>
              i <= HeaderFrom(lines, i) < |lines| && HasMarkers(lines[HeaderFrom(lines, i)])
              && forall j :: i <= j < HeaderFrom(lines, i) ==> !HasMarkers(lines[j])
    ensures (forall k :: i <= k < |lines| ==> !HasMarkers(lines[k])) ==> HeaderFrom(lines, i) == 0
    decreases |lines| - i
  {
    if i < |lines| && !HasMarkers(lines[i]) {
      HeaderFromSpec(lines, i + 1);
      assert HeaderFrom(lines, i) == HeaderFrom(lines, i + 1);
      if exists k :: i <= k < |lines| && HasMarkers(lines[k]) {
        var k :| i <= k < |lines| && HasMarkers(lines[k]);
        assert i + 1 <= k;
        forall j | i <= j < HeaderFrom(lines, i) ensures !HasMarkers(lines[j]) {
          if j > i {
            assert i + 1 <= j < HeaderFrom(lines, i + 1);
          }
        }
      }
    }
  }

  /** The header index is the first line with both markers, or 0 when there is none. */
  lemma HeaderIndexSpec(lines: seq<string>)
    ensures (exists i :: 0 <= i < |lines| && HasMarkers(lines[i])) ==>
              HeaderIndex(lines) < |lines| && HasMarkers(lines[HeaderIndex(lines)])
              && forall j :: 0 <= j < HeaderIndex(lines) ==> !HasMarkers(lines[j])
    ensures (forall i :: 0 <= i < |lines| ==> !HasMarkers(lines[i])) ==> HeaderIndex(lines) == 0
  {
    HeaderFromSpec(lines, 0);
  }

  /** The scan of the three loaders: stops at the first line with both markers. */
  method FindHeader(lines: seq<string>) returns (idx: nat)
    ensures idx == HeaderIndex(lines)
    ensures (exists i :: 0 <= i < |lines| && HasMarkers(lines[i])) ==>
              idx < |lines| && HasMarkers(lines[idx]) && forall j :: 0 <= j < idx ==> !HasMarkers(lines[j])
    ensures (forall i :: 0 <= i < |lines| ==> !HasMarkers(lines[i])) ==> idx == 0
  {
    HeaderIndexSpec(lines);
    idx := 0;
    var i := 0;
    while i < |lines|
      invariant 0 <= i <= |lines|
      invariant forall j :: 0 <= j < i ==> !HasMarkers(lines[j])
      invariant HeaderFrom(lines, i) == HeaderIndex(lines)
      invariant idx == 0
    {
      if Contains(Lower(lines[i]), "secteur") && Contains(Lower(lines[i]), "tstamp") {
        idx := i;
        return;
      }
      i := i + 1;
    }
  }
}
