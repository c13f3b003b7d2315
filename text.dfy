/**
 * The handful of Python `str` operations the scripts rely on: `split()` with no
 * separator, `lower()`, `strip()`, `zfill()`, the substring test `in`, and the
 * code-point order used when pandas sorts a text column.
 *
 * The input file is decoded as Latin-1, so every character the scripts see lies
 * in U+0000..U+00FF; whitespace and lower-casing are modelled exactly on that range.
 */
module Text {

  /** Python's `str.isspace()` on the Latin-1 range: TAB..CR, the four separators U+001C..U+001F,
      SPACE, NEXT LINE (U+0085) and NO-BREAK SPACE (U+00A0). */
  predicate IsSpace(c: char) {
    ('\t' <= c <= '\r') || ('\U{1C}' <= c <= '\U{1F}') || c == ' ' || c == '\U{85}' || c == '\U{A0}'
  }

  predicate NoSpace(s: string) {
    forall i :: 0 <= i < |s| ==> !IsSpace(s[i])
  }

  predicate AllSpace(s: string) {
    forall i :: 0 <= i < |s| ==> IsSpace(s[i])
  }

  // ---------------------------------------------------------------------------
  // str.split()
  // ---------------------------------------------------------------------------

  /** `s` without its leading whitespace. */
  function DropSpaces(s: string): (r: string)
    ensures |r| <= |s| && r == s[|s| - |r|..]
    ensures r == [] || !IsSpace(r[0])
    ensures forall i :: 0 <= i < |s| - |r| ==> IsSpace(s[i])
  {
    if s != [] && IsSpace(s[0]) then
      var r := DropSpaces(s[1..]);
      assert forall i :: 1 <= i < |s| - |r| ==> s[i] == s[1..][i - 1];
      r
    else s
  }

  /** The longest prefix of `s` that holds no whitespace. */
  function Word(s: string): (w: string)
    ensures |w| <= |s| && w == s[..|w|] && NoSpace(w)
    ensures |w| < |s| ==> IsSpace(s[|w|])
  {
    if s == [] || IsSpace(s[0]) then [] else [s[0]] + Word(s[1..])
  }

  /** Non-empty words without whitespace: what `split()` produces. */
  predicate AreWords(ws: seq<string>) {
    forall k :: 0 <= k < |ws| ==> ws[k] != [] && NoSpace(ws[k])
  }

  /** Python's `str.split()` without a separator: the maximal runs of non-whitespace, in order. */
  function Split(s: string): (ws: seq<string>)
    ensures AreWords(ws)
    decreases |s|
  {
    var t := DropSpaces(s);
    if t == [] then []
    else
      var w := Word(t);
      var rest := Split(t[|w|..]);
      AreWordsCons(w, rest);
      [w] + rest
  }

  lemma AreWordsCons(w: string, ws: seq<string>)
    requires w != [] && NoSpace(w) && AreWords(ws)
    ensures AreWords([w] + ws)
  {
    forall k | 0 < k < |ws| + 1 ensures ([w] + ws)[k] == ws[k - 1] {
    }
  }

  /** `" ".join(ws)`. */
  function JoinWords(ws: seq<string>): string {
    if |ws| == 0 then "" else if |ws| == 1 then ws[0] else ws[0] + " " + JoinWords(ws[1..])
  }

  lemma {:induction false} WordOfPrefix(w: string, rest: string)
    requires NoSpace(w)
    requires rest == [] || IsSpace(rest[0])
    ensures Word(w + rest) == w
  {
    if w != [] {
      assert (w + rest)[1..] == w[1..] + rest;
      WordOfPrefix(w[1..], rest);
    }
  }

  lemma SplitLeadingWord(w: string, rest: string)
    requires w != [] && NoSpace(w)
    requires rest == [] || IsSpace(rest[0])
    ensures Split(w + rest) == [w] + Split(rest)
  {
    var s := w + rest;
    WordOfPrefix(w, rest);
    assert DropSpaces(s) == s;
    assert s[|w|..] == rest;
    if rest != [] {
      assert DropSpaces(rest) == DropSpaces(rest[1..]);
    }
  }

  lemma SplitLeadingSpace(x: string)
    ensures Split(" " + x) == Split(x)
  {
    assert (" " + x)[1..] == x;
    assert DropSpaces(" " + x) == DropSpaces(x);
  }

  lemma SplitJoinStep(ws: seq<string>)
    requires |ws| > 1 && ws[0] != [] && NoSpace(ws[0])
    requires Split(JoinWords(ws[1..])) == ws[1..]
    ensures Split(JoinWords(ws)) == ws
  {
    SplitJoinCons(ws);
    assert [ws[0]] + ws[1..] == ws;
  }

  lemma SplitJoinOne(w: string)
    requires w != [] && NoSpace(w)
    ensures Split(JoinWords([w])) == [w]
  {
    assert JoinWords([w]) == w;
    assert w + "" == w;
    assert Split("") == [];
    SplitLeadingWord(w, "");
  }

  lemma SplitJoinCons(ws: seq<string>)
    requires |ws| > 1 && ws[0] != [] && NoSpace(ws[0])
    ensures Split(JoinWords(ws)) == [ws[0]] + Split(JoinWords(ws[1..]))
  {
    var rest := JoinWords(ws[1..]);
    assert JoinWords(ws) == ws[0] + (" " + rest);
    SplitLeadingWord(ws[0], " " + rest);
    SplitLeadingSpace(rest);
  }

  lemma AreWordsTail(ws: seq<string>)
    requires AreWords(ws) && ws != []
    ensures AreWords(ws[1..])
  {
    forall k | 0 <= k < |ws| - 1 ensures ws[1..][k] != [] && NoSpace(ws[1..][k]) {
      assert ws[1..][k] == ws[k + 1];
    }
  }

  /** Splitting a space-joined list of non-empty, whitespace-free words gives the words back. */
  lemma {:induction false} SplitJoinWords(ws: seq<string>)
    requires AreWords(ws)
    ensures Split(JoinWords(ws)) == ws
  {
    if |ws| == 1 {
      SplitJoinOne(ws[0]);
    } else if |ws| > 1 {
      AreWordsTail(ws);
      SplitJoinWords(ws[1..]);
      SplitJoinStep(ws);
    }
  }

  /** The words `ws` with the whitespace runs `gaps` before, between and after them. */
  function Interleave(gaps: seq<string>, ws: seq<string>): string
    requires |gaps| == |ws| + 1
  {
    if ws == [] then gaps[0] else gaps[0] + ws[0] + Interleave(gaps[1..], ws[1..])
  }

  /**
   * `s` reads as the words `ws` separated by the whitespace runs `gaps`: a possibly empty run
   * before the first word and after the last, a non-empty run between two words.
   */
  predicate SplitsInto(s: string, ws: seq<string>, gaps: seq<string>) {
    |gaps| == |ws| + 1
    && (forall k :: 0 <= k < |gaps| ==> AllSpace(gaps[k]))
    && (forall k :: 0 < k < |ws| ==> gaps[k] != [])
    && Interleave(gaps, ws) == s
  }

  /** Dropping the leading whitespace of a whitespace run followed by a non-space. */
  lemma DropSpacesAfterGap(g: string, x: string)
    requires AllSpace(g) && (x == [] || !IsSpace(x[0]))
    ensures DropSpaces(g + x) == x
  {
    var s := g + x;
    var r := DropSpaces(s);
    assert forall i :: 0 <= i < |g| ==> s[i] == g[i];
    assert x != [] ==> s[|g|] == x[0];
    assert r != [] ==> r[0] == s[|s| - |r|];
  }

  /** A whitespace run in front of a word does not change what `split()` finds. */
  lemma SplitAfterGap(g: string, x: string)
    requires AllSpace(g) && (x == [] || !IsSpace(x[0]))
    ensures Split(g + x) == Split(x)
  {
    DropSpacesAfterGap(g, x);
    DropSpacesAfterGap([], x);
    assert [] + x == x;
  }

  /** A leading run and word in front of a split string give a split of the longer string. */
  lemma SplitsIntoCons(s: string, g0: string, t: string, w: string, rest: string, ws: seq<string>, gaps: seq<string>)
    requires AllSpace(g0) && SplitsInto(rest, ws, gaps)
    requires ws != [] ==> gaps[0] != []
    requires s == g0 + t && t == w + rest
    ensures SplitsInto(s, [w] + ws, [g0] + gaps)
  {
    assert s == g0 + w + rest;
    var gaps' := [g0] + gaps;
    assert gaps'[1..] == gaps && ([w] + ws)[1..] == ws;
    forall k | 0 <= k < |gaps'| ensures AllSpace(gaps'[k]) {
      if k > 0 {
        assert gaps'[k] == gaps[k - 1];
      }
    }
    forall k | 0 < k < |[w] + ws| ensures gaps'[k] != [] {
      assert gaps'[k] == gaps[k - 1];
    }
  }

  /** A string is its leading whitespace followed by the rest. */
  lemma LeadingGap(s: string)
    ensures s == s[..|s| - |DropSpaces(s)|] + DropSpaces(s)
    ensures AllSpace(s[..|s| - |DropSpaces(s)|])
  {
  }

  /** A non-empty string without leading whitespace is its first word followed by a rest that starts with a space. */
  lemma FirstWord(t: string)
    requires t != [] && !IsSpace(t[0])
    ensures Word(t) != [] && t == Word(t) + t[|Word(t)|..]
    ensures t[|Word(t)|..] == [] || IsSpace(t[|Word(t)|..][0])
  {
    var w := Word(t);
    assert w == [t[0]] + Word(t[1..]);
    assert t == t[..|w|] + t[|w|..];
  }

  /** A string that starts with a space has a non-empty leading run. */
  lemma LeadingGapNonEmpty(s: string)
    requires s != [] && IsSpace(s[0])
    ensures |s| - |DropSpaces(s)| > 0
  {
    var r := DropSpaces(s);
    assert forall i :: 0 <= i < |r| ==> r[i] == s[|s| - |r| + i];
  }

  /** The words of `split()` and the whitespace runs around them make up the whole string. */
  lemma {:induction false} SplitGaps(s: string) returns (gaps: seq<string>)
    ensures SplitsInto(s, Split(s), gaps)
    ensures |gaps[0]| == |s| - |DropSpaces(s)|
    decreases |s|
  {
    var t := DropSpaces(s);
    var g0 := s[..|s| - |t|];
    LeadingGap(s);
    if t == [] {
      gaps := [s];
      assert Split(s) == [];
    } else {
      var w := Word(t);
      var rest := t[|w|..];
      assert Split(s) == [w] + Split(rest);
      FirstWord(t);
      var gaps' := SplitGaps(rest);
      if Split(rest) != [] {
        LeadingGapNonEmpty(rest);
      }
      SplitsIntoCons(s, g0, t, w, rest, Split(rest), gaps');
      gaps := [g0] + gaps';
      assert gaps[0] == g0;
    }
  }

  /** Every string splits into `split()`'s words and whitespace runs. */
  lemma SplitExists(s: string)
    ensures exists gaps :: SplitsInto(s, Split(s), gaps)
  {
    var gaps := SplitGaps(s);
  }

  /** Conversely, words that make up `s` with whitespace runs between them are `split()`'s words. */
  lemma {:induction false} SplitUnique(s: string, ws: seq<string>, gaps: seq<string>)
    requires AreWords(ws) && SplitsInto(s, ws, gaps)
    ensures Split(s) == ws
    decreases |ws|
  {
    if ws == [] {
      SplitAllSpace(s);
    } else {
      var rest := Interleave(gaps[1..], ws[1..]);
      SplitsIntoTail(s, ws, gaps);
      AreWordsTail(ws);
      SplitUnique(rest, ws[1..], gaps[1..]);
      SplitUniqueStep(s, ws, gaps, rest);
    }
  }

  /** The first run and word of a split, in front of the split of the rest. */
  lemma SplitUniqueStep(s: string, ws: seq<string>, gaps: seq<string>, rest: string)
    requires ws != [] && AreWords(ws) && |gaps| == |ws| + 1 && AllSpace(gaps[0])
    requires s == gaps[0] + (ws[0] + rest) && (rest == [] || IsSpace(rest[0]))
    requires Split(rest) == ws[1..]
    ensures Split(s) == ws
  {
    HeadTail(ws);
    assert ws[0] != [] && NoSpace(ws[0]);
    SplitConsWord(gaps[0], ws[0], rest, ws[1..]);
  }

  lemma HeadTail<T>(xs: seq<T>)
    requires xs != []
    ensures xs == [xs[0]] + xs[1..]
  {
  }

  /** `split()` of a whitespace run, a word and a rest that starts at whitespace. */
  lemma SplitConsWord(g: string, w: string, rest: string, tail: seq<string>)
    requires AllSpace(g) && w != [] && NoSpace(w)
    requires (rest == [] || IsSpace(rest[0])) && Split(rest) == tail
    ensures Split(g + (w + rest)) == [w] + tail
  {
    WordAfterGap(g, w, rest);
    SplitLeadingWord(w, rest);
  }

  /** A whitespace run in front of a word does not change what `split()` finds. */
  lemma WordAfterGap(g: string, w: string, rest: string)
    requires AllSpace(g) && w != [] && NoSpace(w)
    ensures Split(g + (w + rest)) == Split(w + rest)
  {
    assert (w + rest)[0] == w[0];
    SplitAfterGap(g, w + rest);
  }

  /** A string of whitespace has no words. */
  lemma SplitAllSpace(s: string)
    requires AllSpace(s)
    ensures Split(s) == []
  {
    var r := DropSpaces(s);
    assert AllSpace(r);
  }

  /** Dropping the first run and word of a split leaves a split of the rest, which starts with a space. */
  lemma SplitsIntoTail(s: string, ws: seq<string>, gaps: seq<string>)
    requires ws != [] && SplitsInto(s, ws, gaps)
    ensures var rest := Interleave(gaps[1..], ws[1..]);
            SplitsInto(rest, ws[1..], gaps[1..]) && (rest == [] || IsSpace(rest[0]))
            && s == gaps[0] + (ws[0] + rest)
  {
    var rest := Interleave(gaps[1..], ws[1..]);
    if |ws| > 1 {
      assert rest == gaps[1] + ws[1] + Interleave(gaps[2..], ws[2..]);
      assert rest[0] == gaps[1][0];
    }
    forall k | 0 < k < |ws[1..]| ensures gaps[1..][k] != [] {
      assert gaps[1..][k] == gaps[k + 1];
    }
  }

  /** `split()` finds no word exactly in a string of whitespace. */
  lemma SplitEmptyIff(s: string)
    ensures Split(s) == [] <==> AllSpace(s)
  {
    var gaps := SplitGaps(s);
    if AllSpace(s) {
      SplitUnique(s, [], [s]);
    }
  }

  // ---------------------------------------------------------------------------
  // str.lower()
  // ---------------------------------------------------------------------------

  /** `c.lower()` for a Latin-1 character: A-Z and U+00C0..U+00DE except U+00D7 move up by 32. */
  function LowerChar(c: char): char {
    if 'A' <= c <= 'Z' || ('\U{C0}' <= c <= '\U{DE}' && c != '\U{D7}') then (c as int + 32) as char else c
  }

  predicate IsUpperChar(c: char) {
    'A' <= c <= 'Z' || ('\U{C0}' <= c <= '\U{DE}' && c != '\U{D7}')
  }

  function Lower(s: string): (r: string)
    ensures |r| == |s|
    ensures forall i :: 0 <= i < |s| ==> r[i] == LowerChar(s[i]) && !IsUpperChar(r[i])
  {
    if s == [] then [] else [LowerChar(s[0])] + Lower(s[1..])
  }

  /** A string without upper-case letters is its own lower-case form. */
  lemma {:induction false} LowerFixed(s: string)
    requires forall i :: 0 <= i < |s| ==> !IsUpperChar(s[i])
    ensures Lower(s) == s
  {
    if s != [] {
      LowerFixed(s[1..]);
    }
  }

  /** Lower-casing twice is lower-casing once. */
  lemma LowerIdempotent(s: string)
    ensures Lower(Lower(s)) == Lower(s)
  {
    LowerFixed(Lower(s));
  }

  // ---------------------------------------------------------------------------
  // substring test: `pat in s`
  // ---------------------------------------------------------------------------

  predicate OccursAt(s: string, pat: string, i: int) {
    0 <= i && i + |pat| <= |s| && s[i..i + |pat|] == pat
  }

  /** Python's `pat in s` for two strings. */
  predicate Contains(s: string, pat: string)
    decreases |s|
  {
    OccursAt(s, pat, 0) || (s != [] && Contains(s[1..], pat))
  }

  /** `pat in s` holds exactly when `pat` occurs at some position of `s`. */
  lemma {:induction false} ContainsIff(s: string, pat: string)
    ensures Contains(s, pat) <==> exists i :: OccursAt(s, pat, i)
  {
    if Contains(s, pat) && !OccursAt(s, pat, 0) {
      ContainsIff(s[1..], pat);
      var i :| OccursAt(s[1..], pat, i);
      assert s[1..][i..i + |pat|] == s[i + 1..i + 1 + |pat|];
      assert OccursAt(s, pat, i + 1);
    }
    if (exists i :: OccursAt(s, pat, i)) && !OccursAt(s, pat, 0) {
      var i :| OccursAt(s, pat, i);
      assert i > 0;
      assert s[1..][i - 1..i - 1 + |pat|] == s[i..i + |pat|];
      assert OccursAt(s[1..], pat, i - 1);
      ContainsIff(s[1..], pat);
    }
  }

  // ---------------------------------------------------------------------------
  // str.strip()
  // ---------------------------------------------------------------------------

  /** `s` without its trailing whitespace. */
  function DropSpacesRight(s: string): (r: string)
    ensures |r| <= |s| && r == s[..|r|]
    ensures r == [] || !IsSpace(r[|r| - 1])
    ensures forall i :: |r| <= i < |s| ==> IsSpace(s[i])
  {
    if s != [] && IsSpace(s[|s| - 1]) then DropSpacesRight(s[..|s| - 1]) else s
  }

  /** Python's `str.strip()`: `s` less its leading and trailing whitespace. */
  function Strip(s: string): (r: string)
    ensures r == [] || (!IsSpace(r[0]) && !IsSpace(r[|r| - 1]))
    ensures exists i :: StrippedAt(s, r, i)
  {
    var t := DropSpaces(s);
    var r := DropSpacesRight(t);
    StripWitness(s, t, r);
    r
  }

  lemma StripWitness(s: string, t: string, r: string)
    requires |t| <= |s| && t == s[|s| - |t|..] && forall j :: 0 <= j < |s| - |t| ==> IsSpace(s[j])
    requires |r| <= |t| && r == t[..|r|] && forall j :: |r| <= j < |t| ==> IsSpace(t[j])
    ensures StrippedAt(s, r, |s| - |t|)
  {
    var i := |s| - |t|;
    forall k | 0 <= k < |r| ensures s[i..i + |r|][k] == r[k] {
      assert r[k] == t[k] == s[i + k];
    }
    assert s[i..i + |r|] == r;
    forall j | i + |r| <= j < |s| ensures IsSpace(s[j]) {
      assert s[j] == t[j - i];
    }
  }

  /** `r` sits at position `i` of `s`, and everything before and after it is whitespace. */
  predicate StrippedAt(s: string, r: string, i: int) {
    OccursAt(s, r, i)
    && (forall j :: 0 <= j < i ==> IsSpace(s[j]))
    && (forall j :: i + |r| <= j < |s| ==> IsSpace(s[j]))
  }

  /** Stripping a stripped name changes nothing. */
  lemma StripIdempotent(s: string)
    ensures Strip(Strip(s)) == Strip(s)
  {
    var r := Strip(s);
    if r != [] {
      assert DropSpaces(r) == r;
      assert DropSpacesRight(r) == r;
    }
  }

  // ---------------------------------------------------------------------------
  // decimal digits and str.zfill()
  // ---------------------------------------------------------------------------

  predicate IsDigit(c: char) {
    '0' <= c <= '9'
  }

  predicate AllDigits(s: string) {
    forall i :: 0 <= i < |s| ==> IsDigit(s[i])
  }

  function DigitChar(n: nat): (c: char)
    requires n < 10
    ensures IsDigit(c) && (c as int) - ('0' as int) == n
  {
    ('0' as int + n) as char
  }

  /** The value of a string of decimal digits, most significant first. */
  function DigitsValue(s: string): nat
    requires AllDigits(s)
  {
    if s == [] then 0 else DigitsValue(s[..|s| - 1]) * 10 + ((s[|s| - 1] as int) - ('0' as int))
  }

  /** Python's `str(n)` for a natural number. */
  function Decimal(n: nat): (s: string)
    ensures s != [] && AllDigits(s) && DigitsValue(s) == n
  {
    if n < 10 then [DigitChar(n)]
    else
      var s := Decimal(n / 10) + [DigitChar(n % 10)];
      assert s[..|s| - 1] == Decimal(n / 10);
      s
  }

  function Pow10(k: nat): (p: nat)
    ensures p >= 1
  {
    if k == 0 then 1 else 10 * Pow10(k - 1)
  }

  /** `n` written with exactly `k` decimal digits, zero-padded on the left (`f"{n:0{k}d}"`). */
  function Padded(n: nat, k: nat): (s: string)
    requires n < Pow10(k)
    ensures |s| == k && AllDigits(s) && DigitsValue(s) == n
  {
    if k == 0 then ""
    else
      var s := Padded(n / 10, k - 1) + [DigitChar(n % 10)];
      assert s[..|s| - 1] == Padded(n / 10, k - 1);
      s
  }

  /** A digit string is the padded form of its own value. */
  lemma {:induction false} PaddedOfValue(t: string)
    requires AllDigits(t)
    ensures DigitsValue(t) < Pow10(|t|) && Padded(DigitsValue(t), |t|) == t
  {
    if t != [] {
      var init, c := t[..|t| - 1], t[|t| - 1];
      assert t == init + [c];
      PaddedOfValue(init);
      PaddedStep(init, c, DigitsValue(init), DigitsValue(t));
    }
  }

  lemma PaddedStep(init: string, c: char, u: nat, v: nat)
    requires IsDigit(c)
    requires u < Pow10(|init|) && Padded(u, |init|) == init
    requires v == u * 10 + ((c as int) - ('0' as int))
    ensures v < Pow10(|init| + 1) && Padded(v, |init| + 1) == init + [c]
  {
    var last: nat := (c as int) - ('0' as int);
    DivModTen(u, last, Pow10(|init|));
    PaddedSnoc(u, |init|, v, last, init, c);
  }

  lemma PaddedSnoc(u: nat, k: nat, v: nat, last: nat, init: string, c: char)
    requires u < Pow10(k) && Padded(u, k) == init
    requires last < 10 && DigitChar(last) == c
    requires v < Pow10(k + 1) && v / 10 == u && v % 10 == last
    ensures Padded(v, k + 1) == init + [c]
  {
    PaddedUnfold(v, k + 1);
  }

  lemma PaddedUnfold(n: nat, k: nat)
    requires k > 0 && n < Pow10(k)
    ensures Padded(n, k) == Padded(n / 10, k - 1) + [DigitChar(n % 10)]
  {
  }

  lemma DivModTen(u: nat, last: nat, p: nat)
    requires last < 10 && u < p
    ensures (u * 10 + last) / 10 == u && (u * 10 + last) % 10 == last
    ensures u * 10 + last < 10 * p
  {
  }

  function Zeros(n: nat): (z: string)
    ensures |z| == n && forall i :: 0 <= i < n ==> z[i] == '0'
  {
    if n == 0 then "" else "0" + Zeros(n - 1)
  }

  /** Python's `s.zfill(width)`: pad with '0' on the left up to `width` characters,
      keeping a leading '+' or '-' in front of the padding. */
  function ZFill(s: string, width: nat): (r: string)
    ensures |r| == if |s| >= width then |s| else width
    ensures |s| >= width ==> r == s
    ensures (s == [] || (s[0] != '+' && s[0] != '-')) ==>
              r[|r| - |s|..] == s && forall i :: 0 <= i < |r| - |s| ==> r[i] == '0'
    ensures s != [] && (s[0] == '+' || s[0] == '-') ==>
              r[0] == s[0] && r[|r| - |s| + 1..] == s[1..] && forall i :: 1 <= i <= |r| - |s| ==> r[i] == '0'
  {
    if |s| >= width then s
    else if s != [] && (s[0] == '+' || s[0] == '-') then [s[0]] + Zeros(width - |s|) + s[1..]
    else Zeros(width - |s|) + s
  }

  lemma {:induction false} LeadingZeroValue(s: string)
    requires AllDigits(s)
    ensures AllDigits("0" + s) && DigitsValue("0" + s) == DigitsValue(s)
    decreases |s|
  {
    if s != [] {
      var t := "0" + s;
      assert t[..|t| - 1] == "0" + s[..|s| - 1];
      LeadingZeroValue(s[..|s| - 1]);
    }
  }

  lemma {:induction false} ZerosValue(n: nat, s: string)
    requires AllDigits(s)
    ensures AllDigits(Zeros(n) + s) && DigitsValue(Zeros(n) + s) == DigitsValue(s)
  {
    if n == 0 {
      assert Zeros(n) + s == s;
    } else {
      ZerosValue(n - 1, s);
      assert Zeros(n) + s == "0" + (Zeros(n - 1) + s);
      LeadingZeroValue(Zeros(n - 1) + s);
    }
  }

  /** Zero-padding a number written in decimal digits does not change its value. */
  lemma ZFillKeepsValue(s: string, width: nat)
    requires AllDigits(s)
    ensures AllDigits(ZFill(s, width)) && DigitsValue(ZFill(s, width)) == DigitsValue(s)
  {
    if |s| < width {
      ZerosValue(width - |s|, s);
    }
  }

  // ---------------------------------------------------------------------------
  // code-point order of strings (Python's `<` on str)
  // ---------------------------------------------------------------------------

  predicate StrLt(a: string, b: string)
    decreases |a|
  {
    if a == [] then b != []
    else if b == [] then false
    else if a[0] != b[0] then a[0] < b[0]
    else StrLt(a[1..], b[1..])
  }

  lemma {:induction false} StrLtIrreflexive(a: string)
    ensures !StrLt(a, a)
  {
    if a != [] {
      StrLtIrreflexive(a[1..]);
    }
  }

  lemma {:induction false} StrLtTransitive(a: string, b: string, c: string)
    requires StrLt(a, b) && StrLt(b, c)
    ensures StrLt(a, c)
    decreases |a|
  {
    if a != [] && b != [] && c != [] && a[0] == b[0] && b[0] == c[0] {
      StrLtTransitive(a[1..], b[1..], c[1..]);
    }
  }

  /** Any two distinct strings are ordered one way or the other. */
  lemma {:induction false} StrLtTotal(a: string, b: string)
    ensures a == b || StrLt(a, b) || StrLt(b, a)
    decreases |a|
  {
    if a != [] && b != [] && a[0] == b[0] {
      StrLtTotal(a[1..], b[1..]);
      if a[1..] == b[1..] {
        assert a == [a[0]] + a[1..] && b == [b[0]] + b[1..];
      }
    }
  }

  lemma {:induction false} StrLtAsymmetric(a: string, b: string)
    ensures !(StrLt(a, b) && StrLt(b, a))
  {
    if StrLt(a, b) && StrLt(b, a) {
      StrLtTransitive(a, b, a);
      StrLtIrreflexive(a);
    }
  }
}
