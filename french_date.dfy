/**
 * `parse_french_date`: turns a verbose French date such as "lundi 18 juin 2018" into the
 * text "2018-06-18". Two variants exist: forecast_traffic.py and visualize_results.py
 * return `None` for a text of fewer than four words, explore_data.py returns the text itself.
 */
module FrenchDate {
  import opened Wrappers
  import opened Text
  import opened Calendar

  /** The twelve month names of the lookup table, in calendar order. */
  const MonthNames: seq<string> :=
    ["janvier", "février", "mars", "avril", "mai", "juin",
     "juillet", "août", "septembre", "octobre", "novembre", "décembre"]

  /** `months.get(name, '01')`: the two-digit month of a French month name, "01" for any other name. */
  function MonthNumber(name: string): string {
    match name
    case "janvier" => "01"
    case "février" => "02"
    case "mars" => "03"
    case "avril" => "04"
    case "mai" => "05"
    case "juin" => "06"
    case "juillet" => "07"
    case "août" => "08"
    case "septembre" => "09"
    case "octobre" => "10"
    case "novembre" => "11"
    case "décembre" => "12"
    case _ => "01"
  }

  /** The table maps the i-th name to month i + 1, written with two digits. */
  lemma MonthTableInOrder(i: nat)
    requires i < 12
    ensures MonthNumber(MonthNames[i]) == Padded(i + 1, 2)
  {
    var k := i + 1;
    assert Padded(k, 2) == [DigitChar(k / 10), DigitChar(k % 10)];
    if i < 6 {
      MonthTableFirstHalf(i);
    } else {
      MonthTableSecondHalf(i);
    }
  }

  lemma MonthTableFirstHalf(i: nat)
    requires i < 6
    ensures MonthNumber(MonthNames[i]) == [DigitChar((i + 1) / 10), DigitChar((i + 1) % 10)]
  {
    if i == 0 {} else if i == 1 {} else if i == 2 {} else if i == 3 {} else if i == 4 {} else {}
  }

  lemma MonthTableSecondHalf(i: nat)
    requires 6 <= i < 12
    ensures MonthNumber(MonthNames[i]) == [DigitChar((i + 1) / 10), DigitChar((i + 1) % 10)]
  {
    if i == 6 {} else if i == 7 {} else if i == 8 {} else if i == 9 {} else if i == 10 {} else {}
  }

  /** A name outside the table silently falls back to January. */
  lemma UnknownMonthIsJanuary(name: string)
    requires name !in MonthNames
    ensures MonthNumber(name) == "01"
  {
  }

  /** Every answer of the table is a month number 01..12. */
  lemma MonthNumberIsMonth(name: string)
    ensures var mm := MonthNumber(name);
            |mm| == 2 && AllDigits(mm) && 1 <= DigitsValue(mm) <= 12
  {
    if name in MonthNames {
      var i :| 0 <= i < 12 && MonthNames[i] == name;
      MonthTableInOrder(i);
    } else {
      assert MonthNumber(name) == Padded(1, 2);
    }
  }

  /** The table's names are already lower case, so `.lower()` leaves them to match. */
  lemma MonthNamesAreLowerCase(i: nat)
    requires i < 12
    ensures Lower(MonthNames[i]) == MonthNames[i]
  {
    LowerFixed(MonthNames[i]);
  }

  /** The body shared by both variants once the text has at least four words. */
  function FormatWords(parts: seq<string>): string
    requires |parts| >= 4
  {
    parts[3] + "-" + MonthNumber(Lower(parts[2])) + "-" + ZFill(parts[1], 2)
  }

  /** `parse_french_date` of forecast_traffic.py and visualize_results.py. */
  function ParseFrenchDate(text: string): Option<string> {
    var parts := Split(text);
    if |parts| >= 4 then Some(FormatWords(parts)) else None
  }

  /** `parse_french_date` of explore_data.py: a short text comes back unchanged. */
  function ParseFrenchDateOrEcho(text: string): string {
    var parts := Split(text);
    if |parts| >= 4 then FormatWords(parts) else text
  }

  /** Fewer than four words gives `None`, never an exception; four or more always give a text. */
  lemma ShortTextHasNoDate(text: string)
    ensures ParseFrenchDate(text).None? <==> |Split(text)| < 4
  {
  }

  /** The explore_data.py variant agrees with the other one, except that it echoes short texts. */
  lemma EchoVariantAgrees(text: string)
    ensures ParseFrenchDateOrEcho(text) == match ParseFrenchDate(text) case Some(iso) => iso case None => text
  {
  }

  /** Parsing space-joined words formats the second, third and fourth of them. */
  lemma ParseJoinedWords(ws: seq<string>)
    requires |ws| >= 4 && AreWords(ws)
    ensures ParseFrenchDate(JoinWords(ws)) == Some(FormatWords(ws))
  {
    SplitJoinWords(ws);
  }

  /** With four or more words, the result is year "-" month "-" day: the first word (the weekday)
      and every word after the year play no part, and the day is zero-padded to two characters. */
  lemma ParseFrenchDateWords(ws: seq<string>, weekday: string, extra: seq<string>)
    requires |ws| >= 4 && AreWords(ws)
    requires weekday != [] && NoSpace(weekday) && AreWords(extra)
    ensures ParseFrenchDate(JoinWords(ws)) == ParseFrenchDate(JoinWords([weekday] + ws[1..4] + extra))
    ensures ParseFrenchDate(JoinWords(ws)) ==
              Some(ws[3] + "-" + MonthNumber(Lower(ws[2])) + "-" + ZFill(ws[1], 2))
  {
    var other := [weekday] + ws[1..4] + extra;
    assert other[1..4] == ws[1..4];
    assert AreWords(other) by {
      forall k | 0 <= k < |other| ensures other[k] != [] && NoSpace(other[k]) {
        if k >= 4 {
          assert other[k] == extra[k - 4];
        }
      }
    }
    ParseJoinedWords(ws);
    ParseJoinedWords(other);
  }

  lemma DigitsHaveNoSpace(s: string)
    requires AllDigits(s)
    ensures NoSpace(s)
  {
  }

  /** `str(d).zfill(2)` is the two-digit form of a day below 100. */
  lemma ZFillDecimal(d: nat)
    requires d < 100
    ensures ZFill(Decimal(d), 2) == Padded(d, 2)
  {
    var z := ZFill(Decimal(d), 2);
    if d >= 10 {
      assert Decimal(d) == Decimal(d / 10) + [DigitChar(d % 10)];
    }
    assert |Decimal(d)| <= 2;
    ZFillKeepsValue(Decimal(d), 2);
    PaddedOfValue(z);
  }

  lemma MonthNameIsWord(i: nat)
    requires i < 12
    ensures MonthNames[i] != [] && NoSpace(MonthNames[i])
  {
  }

  /** Writing a date the way the file does ("<weekday> <day> <month name> <year>") and parsing it
      gives that date's `YYYY-MM-DD` text. */
  lemma FrenchDateRoundTrip(weekday: string, y: nat, m: nat, d: nat)
    requires weekday != [] && NoSpace(weekday)
    requires y < 10000 && 1 <= m <= 12 && 1 <= d <= 31
    ensures ParseFrenchDate(JoinWords([weekday, Decimal(d), MonthNames[m - 1], Padded(y, 4)]))
            == Some(FormatIsoDate(y, m, d))
  {
    var name := MonthNames[m - 1];
    var ws := [weekday, Decimal(d), name, Padded(y, 4)];
    DigitsHaveNoSpace(Decimal(d));
    DigitsHaveNoSpace(Padded(y, 4));
    MonthNameIsWord(m - 1);
    assert AreWords(ws);
    ParseJoinedWords(ws);
    MonthOfName(m);
    ZFillDecimal(d);
    assert FormatWords(ws) == Padded(y, 4) + "-" + Padded(m, 2) + "-" + Padded(d, 2);
  }

  /** The month name of month `m`, as the file writes it, reads back as `m`. */
  lemma MonthOfName(m: nat)
    requires 1 <= m <= 12
    ensures MonthNumber(Lower(MonthNames[m - 1])) == Padded(m, 2)
  {
    MonthNamesAreLowerCase(m - 1);
    MonthTableInOrder(m - 1);
  }

  lemma JoinFourWords(w0: string, w1: string, w2: string, w3: string)
    ensures JoinWords([w0, w1, w2, w3]) == w0 + " " + w1 + " " + w2 + " " + w3
  {
    var ws := [w0, w1, w2, w3];
    assert ws[1..] == [w1, w2, w3] && ws[1..][1..] == [w2, w3] && ws[1..][1..][1..] == [w3];
    assert JoinWords([w2, w3]) == w2 + " " + w3;
    assert JoinWords([w1, w2, w3]) == w1 + " " + (w2 + " " + w3);
    assert JoinWords(ws) == w0 + " " + (w1 + " " + (w2 + " " + w3));
  }

  lemma ParsedExample(ws: seq<string>, text: string, iso: string)
    requires |ws| >= 4 && AreWords(ws)
    requires JoinWords(ws) == text && FormatWords(ws) == iso
    ensures ParseFrenchDate(text) == Some(iso)
  {
    ParseJoinedWords(ws);
  }

  /** The date quoted in the comment of explore_data.py. */
  lemma JuneExample(text: string)
    requires text == "lundi 18 juin 2018"
    ensures ParseFrenchDate(text) == Some("2018-06-18")
  {
    var ws := ["lundi", "18", "juin", "2018"];
    JuneWords(ws);
    JuneFields(ws);
    ParsedExample(ws, text, "2018-06-18");
  }

  lemma JuneWords(ws: seq<string>)
    requires ws == ["lundi", "18", "juin", "2018"]
    ensures AreWords(ws) && JoinWords(ws) == "lundi 18 juin 2018"
  {
    JoinFourWords("lundi", "18", "juin", "2018");
  }

  lemma JuneFields(ws: seq<string>)
    requires ws == ["lundi", "18", "juin", "2018"]
    ensures FormatWords(ws) == "2018-06-18"
  {
    JuneMonth();
    assert ZFill(ws[1], 2) == "18";
    assert FormatWords(ws) == "2018" + "-" + "06" + "-" + "18";
  }

  lemma JuneMonth()
    ensures MonthNumber(Lower("juin")) == "06"
  {
    LowerFixed("juin");
  }
}
