/** Calendar dates as the document builder prints them: `DD.MM.YYYY`
    (main.py:74, 449) and the long Russian form `«DD» месяца YYYY г.` (main.py:450-451). */
module Dates {
  import opened Wrappers
  import opened PyStr
  import opened Decimal

  datatype Date = Date(year: nat, month: nat, day: nat)

  /** The range of `datetime.date`; the day is bounded by 31 whatever the month. */
  predicate ValidDate(d: Date) {
    1 <= d.year <= 9999 && 1 <= d.month <= 12 && 1 <= d.day <= 31
  }

  /** What a date parser hands back: always a valid date. */
  type ParsedDate = d: Date | ValidDate(d) witness Date(1970, 1, 1)

  /** The date printed day, month and year, each zero-padded (two, two and four
      digits) and separated by dots. */
  function StrftimeDMY(d: Date): (s: string)
    ensures ValidDate(d) ==> |s| == 10 && s[2] == '.' && s[5] == '.'
  {
    PadWidths(d);
    Pad(d.day, 2) + "." + Pad(d.month, 2) + "." + Pad(d.year, 4)
  }

  lemma PadWidths(d: Date)
    ensures ValidDate(d) ==> |Pad(d.day, 2)| == 2 && |Pad(d.month, 2)| == 2 && |Pad(d.year, 4)| == 4
  {
    if ValidDate(d) {
      PadWidth(d.day, 2);
      PadWidth(d.month, 2);
      PadWidth(d.year, 4);
    }
  }

  /** Reads `DD.MM.YYYY` back: the inverse of `StrftimeDMY` on valid dates. */
  function ParseDMY(s: string): (r: Option<Date>)
    ensures r.Some? ==> |s| == 10
  {
    if |s| == 10 && s[2] == '.' && s[5] == '.' && IsDigits(s[..2]) && IsDigits(s[3..5]) && IsDigits(s[6..]) then
      Some(Date(DecimalValue(s[6..]), DecimalValue(s[3..5]), DecimalValue(s[..2])))
    else None
  }

  lemma StrftimeRoundTrip(d: Date)
    requires ValidDate(d)
    ensures ParseDMY(StrftimeDMY(d)) == Some(d)
  {
    var dd := Pad(d.day, 2);
    var mm := Pad(d.month, 2);
    var yyyy := Pad(d.year, 4);
    PadWidths(d);
    var s := dd + "." + mm + "." + yyyy;
    assert s[..2] == dd;
    assert s[3..5] == mm;
    assert s[6..] == yyyy;
  }

  /** Distinct valid dates print differently. */
  lemma StrftimeInjective(d1: Date, d2: Date)
    requires ValidDate(d1) && ValidDate(d2) && StrftimeDMY(d1) == StrftimeDMY(d2)
    ensures d1 == d2
  {
    StrftimeRoundTrip(d1);
    StrftimeRoundTrip(d2);
  }

  /** `date_short` (main.py:449): the day, month and year printed as
      `DD.MM.YYYY`, followed by a space and the abbreviation "г.". */
  function DateShort(d: Date): (s: string)
    ensures ValidDate(d) ==> |s| == 13 && ParseDMY(s[..10]) == Some(d) && s[10..] == " г."
  {
    ShortPrefix(d);
    StrftimeDMY(d) + " г."
  }

  lemma ShortPrefix(d: Date)
    ensures ValidDate(d) ==> ParseDMY((StrftimeDMY(d) + " г.")[..10]) == Some(d)
  {
    if ValidDate(d) {
      StrftimeRoundTrip(d);
      assert (StrftimeDMY(d) + " г.")[..10] == StrftimeDMY(d);
    }
  }

  const MonthsRu: seq<string> := ["января", "февраля", "марта", "апреля", "мая", "июня",
    "июля", "августа", "сентября", "октября", "ноября", "декабря"]

  lemma WordByChar(w: string)
    requires w != [] && NoSpaceByChar(w)
    ensures IsToken(w)
  {
    NoSpaceByCharSound(w);
  }

  lemma MonthNameIsWord(k: nat)
    requires k < 12
    ensures IsToken(MonthsRu[k])
  {
    if k < 3 {
      MonthsIsWord0(k);
    } else if k < 6 {
      MonthsIsWord1(k);
    } else if k < 9 {
      MonthsIsWord2(k);
    } else {
      MonthsIsWord3(k);
    }
  }

  lemma MonthsIsWord0(k: nat)
    requires 0 <= k < 3
    ensures IsToken(MonthsRu[k])
  {
    if k == 0 { WordByChar("января"); }
    else if k == 1 { WordByChar("февраля"); }
    else { WordByChar("марта"); }
  }

  lemma MonthsIsWord1(k: nat)
    requires 3 <= k < 6
    ensures IsToken(MonthsRu[k])
  {
    if k == 3 { WordByChar("апреля"); }
    else if k == 4 { WordByChar("мая"); }
    else { WordByChar("июня"); }
  }

  lemma MonthsIsWord2(k: nat)
    requires 6 <= k < 9
    ensures IsToken(MonthsRu[k])
  {
    if k == 6 { WordByChar("июля"); }
    else if k == 7 { WordByChar("августа"); }
    else { WordByChar("сентября"); }
  }

  lemma MonthsIsWord3(k: nat)
    requires 9 <= k < 12
    ensures IsToken(MonthsRu[k])
  {
    if k == 9 { WordByChar("октября"); }
    else if k == 10 { WordByChar("ноября"); }
    else { WordByChar("декабря"); }
  }

  lemma MonthNamesDistinct()
    ensures forall i, j :: 0 <= i < j < 12 ==> MonthsRu[i] != MonthsRu[j]
  {
  }

  /** `date_full` (main.py:451): the two-digit day in guillemets, the month's
      genitive name, the year without padding and the abbreviation "г.",
      separated by single spaces; it splits back into exactly those four words. */
  function DateFull(d: Date): (s: string)
    requires 1 <= d.month <= 12
    ensures Split(s) == ["«" + Pad(d.day, 2) + "»", MonthsRu[d.month - 1], NatToDecimal(d.year), "г."]
    ensures s == Join(["«" + Pad(d.day, 2) + "»", MonthsRu[d.month - 1], NatToDecimal(d.year), "г."], " ")
  {
    LongDateWords(d.day, d.month - 1, d.year);
    JoinFour("«" + Pad(d.day, 2) + "»", MonthsRu[d.month - 1], NatToDecimal(d.year), "г.", " ");
    "«" + Pad(d.day, 2) + "»" + " " + MonthsRu[d.month - 1] + " " + NatToDecimal(d.year) + " " + "г."
  }

  lemma JoinFour(a: string, b: string, c: string, e: string, sep: string)
    ensures Join([a, b, c, e], sep) == a + sep + b + sep + c + sep + e
  {
    var t3 := c + sep + e;
    assert [c, e][1..] == [e];
    assert Join([c, e], sep) == t3;
    var t2 := b + sep + t3;
    assert [b, c, e][1..] == [c, e];
    assert Join([b, c, e], sep) == t2;
    assert [a, b, c, e][1..] == [b, c, e];
    assert Join([a, b, c, e], sep) == a + sep + t2;
    assert a + sep + t2 == a + sep + b + sep + c + sep + e;
  }

  lemma BracketedDayIsWord(n: nat)
    ensures IsToken("«" + Pad(n, 2) + "»")
  {
    var w := "«" + Pad(n, 2) + "»";
    assert forall i :: 1 <= i < |w| - 1 ==> w[i] == Pad(n, 2)[i - 1];
  }

  lemma LongDateWords(day: nat, k: nat, year: nat)
    requires k < 12
    ensures var w := "«" + Pad(day, 2) + "»"; var y := NatToDecimal(year);
      Split(w + " " + MonthsRu[k] + " " + y + " " + "г.") == [w, MonthsRu[k], y, "г."]
  {
    var y := NatToDecimal(year);
    BracketedDayIsWord(day);
    MonthNameIsWord(k);
    assert NoSpaceByChar("г.");
    NoSpaceByCharSound("г.");
    assert forall i :: 0 <= i < |y| ==> IsDigit(y[i]);
    SplitFourTokens("«" + Pad(day, 2) + "»", MonthsRu[k], y, "г.");
  }

  /** Distinct valid dates have distinct long forms. */
  lemma DateFullInjective(d1: Date, d2: Date)
    requires ValidDate(d1) && ValidDate(d2) && DateFull(d1) == DateFull(d2)
    ensures d1 == d2
  {
    var w1 := "«" + Pad(d1.day, 2) + "»";
    var w2 := "«" + Pad(d2.day, 2) + "»";
    assert w1 == w2;
    assert w1[1..|w1| - 1] == Pad(d1.day, 2);
    assert w2[1..|w2| - 1] == Pad(d2.day, 2);
    MonthNamesDistinct();
    NatToDecimalInjective(d1.year, d2.year);
  }
}
