/**
 * The `dd/MM/yyyy` pattern of `SimpleDateFormat`, restricted to the
 * well-formed part: three runs of decimal digits separated by `/` that name
 * a valid Gregorian date no later than the calendar's last year. Formatting pads the day and month to two digits
 * and the year to four; parsing accepts any number of digits per field.
 */
module DateFormat {
  import opened Wrappers
  import opened Digits
  import opened Calendar

  /** `sdf.format(date)` for the pattern `dd/MM/yyyy`. */
  function Format(d: Date): (s: string)
    ensures |s| >= 10
  {
    Padded(d.day, 2) + "/" + Padded(d.month, 2) + "/" + Padded(d.year, 4)
  }

  /**
   * The shape of a formatted valid date: two digits of day, `/`, two digits
   * of month, `/`, and the year in at least four digits (exactly four before
   * the year 10000).
   */
  lemma FormatShape(d: Date)
    requires ValidDate(d)
    ensures var s := Format(d);
      && s[2] == '/' && s[5] == '/'
      && AllDigits(s[..2]) && AllDigits(s[3..5]) && AllDigits(s[6..])
      && (d.year < 10000 ==> |s| == 10)
  {
    var dd, mm, yyyy := Padded(d.day, 2), Padded(d.month, 2), Padded(d.year, 4);
    var s := Format(d);
    assert Pow10(2) == 100 && Pow10(4) == 10000;
    assert s[..2] == dd && s[3..5] == mm && s[6..] == yyyy;
  }

  /**
   * The three `/`-separated digit runs of `s`, read at their full value
   * whether or not they name a date.
   */
  function ReadFields(s: string): Option<Date>
  {
    var i := DigitRun(s);
    if i == 0 || i == |s| || s[i] != '/' then None
    else
      var rest := s[i + 1..];
      var j := DigitRun(rest);
      if j == 0 || j == |rest| || rest[j] != '/' then None
      else
        var yearText := rest[j + 1..];
        if |yearText| == 0 || DigitRun(yearText) != |yearText| then None
        else
          assert yearText[..|yearText|] == yearText;
          Some(FieldsRead(s[..i], rest[..j], yearText))
  }

  /** The date three digit fields name, read at their full value. */
  function FieldsRead(dayText: string, monthText: string, yearText: string): Date
    requires AllDigits(dayText) && AllDigits(monthText) && AllDigits(yearText)
  {
    Date(Value(dayText), Value(monthText), Value(yearText))
  }

  /**
   * A date the parser accepts: a valid one no later than the calendar's last
   * year, so that every field fits the 32-bit `int` Java stores it in.
   */
  predicate Accepted(d: Date) {
    ValidDate(d) && d.year <= MaxYear
  }

  /**
   * `sdf.parse(text)` for the pattern `dd/MM/yyyy`: None where the source
   * catches a `ParseException`.
   */
  function Parse(s: string): (r: Option<Date>)
    ensures r.Some? ==> ValidDate(r.value) && r.value.year <= MaxYear
  {
    match ReadFields(s)
    case Some(d) => if Accepted(d) then Some(d) else None
    case None => None
  }

  /** The date three digit fields joined by `/` denote, when the parser accepts it. */
  function FieldsDate(dayText: string, monthText: string, yearText: string): Option<Date>
    requires AllDigits(dayText) && AllDigits(monthText) && AllDigits(yearText)
  {
    var d := FieldsRead(dayText, monthText, yearText);
    if Accepted(d) then Some(d) else None
  }

  /**
   * Any three non-empty digit runs joined by `/` are read field by field,
   * whatever their number of digits; the text is accepted exactly when the
   * fields name a valid date no later than `MaxYear`.
   */
  lemma ParseFields(dayText: string, monthText: string, yearText: string)
    requires AllDigits(dayText) && AllDigits(monthText) && AllDigits(yearText)
    requires |dayText| > 0 && |monthText| > 0 && |yearText| > 0
    ensures Parse(dayText + "/" + monthText + "/" + yearText) == FieldsDate(dayText, monthText, yearText)
  {
    ReadJoinedFields(dayText, monthText, yearText);
  }

  lemma ReadJoinedFields(dayText: string, monthText: string, yearText: string)
    requires AllDigits(dayText) && AllDigits(monthText) && AllDigits(yearText)
    requires |dayText| > 0 && |monthText| > 0 && |yearText| > 0
    ensures ReadFields(dayText + "/" + monthText + "/" + yearText) == Some(FieldsRead(dayText, monthText, yearText))
  {
    var s := dayText + "/" + monthText + "/" + yearText;
    assert s == dayText + ("/" + monthText + "/" + yearText);
    DigitRunOfPrefix(dayText, "/" + monthText + "/" + yearText);
    assert s[..|dayText|] == dayText;
    var rest := s[|dayText| + 1..];
    assert rest == monthText + ("/" + yearText);
    DigitRunOfPrefix(monthText, "/" + yearText);
    assert rest[..|monthText|] == monthText;
    assert rest[|monthText| + 1..] == yearText;
    DigitRunOfPrefix(yearText, []);
    assert yearText + [] == yearText;
  }

  /** The fields of any formatted date read back as that date. */
  lemma ReadFormat(d: Date)
    ensures ReadFields(Format(d)) == Some(d)
  {
    ReadJoinedFields(Padded(d.day, 2), Padded(d.month, 2), Padded(d.year, 4));
  }

  /** Parsing what was formatted gives back the same day, for every year the calendar holds. */
  lemma ParseFormat(d: Date)
    requires ValidDate(d) && d.year <= MaxYear
    ensures Parse(Format(d)) == Some(d)
  {
    ReadFormat(d);
  }

  /** Two dates format to the same text exactly when they are the same day. */
  lemma FormatIsInjective(a: Date, b: Date)
    ensures Format(a) == Format(b) <==> a == b
  {
    ReadFormat(a);
    ReadFormat(b);
  }

  /**
   * A year beyond `MaxYear` is refused, even where Java's 32-bit field would
   * wrap it round to a year the calendar holds.
   */
  lemma LongYearIsRefused(dayText: string, monthText: string, yearText: string)
    requires AllDigits(dayText) && AllDigits(monthText) && AllDigits(yearText)
    requires |dayText| > 0 && |monthText| > 0 && |yearText| > 0
    requires Value(yearText) > MaxYear
    ensures Parse(dayText + "/" + monthText + "/" + yearText) == None
  {
  }

  /**
   * Parsing then formatting is a normalisation: applying it to its own output
   * changes nothing.
   */
  lemma NormaliseIsIdempotent(s: string)
    requires Parse(s).Some?
    ensures Parse(Format(Parse(s).value)) == Parse(s)
  {
    ParseFormat(Parse(s).value);
  }

  /** Unpadded fields are read like padded ones. */
  lemma UnpaddedFieldsAreRead()
    ensures Parse("1/2/2024") == Some(Date(1, 2, 2024))
  {
    ExampleValues();
    ParseFields("1", "2", "2024");
    assert "1" + "/" + "2" + "/" + "2024" == "1/2/2024";
  }

  lemma ExampleValues()
    ensures Value("1") == 1 && Value("2") == 2 && Value("2024") == 2024
  {
    assert "2024"[..3] == "202" && "202"[..2] == "20" && "20"[..1] == "2";
  }
}
