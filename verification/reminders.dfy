/**
 * The appointment-reminder check: one firing of the notification timer.
 * It counts the appointments dated today and tomorrow and, when either count
 * is positive, composes the reminder text the dialog shows.
 */
module Reminders {
  import opened Wrappers
  import opened Digits
  import opened Calendar
  import opened DateFormat

  /** An appointment, reduced to the `dd/MM/yyyy` date text the check reads. */
  datatype Appointment = Appointment(date: string)

  const MillisPerDay: nat := 86_400_000

  /** A moment in local time, as `new Date()` denotes one: a day and a time of day. */
  datatype Instant = Instant(date: Date, millisOfDay: nat)

  predicate ValidInstant(t: Instant) {
    ValidDate(t.date) && t.millisOfDay < MillisPerDay
  }

  /** `cal.add(Calendar.DATE, 1)`: the same time of day, one calendar day later. */
  function AddOneDay(t: Instant): (r: Instant)
    requires ValidInstant(t)
    ensures ValidInstant(r)
    ensures r.millisOfDay == t.millisOfDay
    ensures Ordinal(r.date) == Ordinal(t.date) + 1
  {
    NextDayAddsOneDay(t.date);
    Instant(NextDay(t.date), t.millisOfDay)
  }

  /** How one appointment fares in the scan. */
  datatype Class = Unparseable | DueToday | DueTomorrow | NotDue

  /**
   * One iteration of the scan: parse the date, format it again and compare the
   * text with today's and tomorrow's, today first.
   */
  function Classify(date: string, todayText: string, tomorrowText: string): Class {
    match Parse(date)
    case None => Unparseable
    case Some(d) =>
      var text := Format(d);
      if text == todayText then DueToday
      else if text == tomorrowText then DueTomorrow
      else NotDue
  }

  /**
   * Today's text and tomorrow's text always differ, so the order of the two
   * comparisons in one iteration never decides which counter moves.
   */
  lemma TodayTextIsNotTomorrowText(d: Date)
    requires ValidDate(d)
    ensures Format(d) != Format(NextDay(d))
  {
    FormatIsInjective(d, NextDay(d));
  }

  /** The two counters of the scan. */
  datatype Counts = Counts(today: nat, tomorrow: nat) {
    function Plus(other: Counts): Counts {
      Counts(today + other.today, tomorrow + other.tomorrow)
    }
  }

  /** One step of the scan: the counter the class names goes up by one. */
  function Bump(c: Counts, k: Class): (r: Counts)
    ensures r.today >= c.today && r.tomorrow >= c.tomorrow
    ensures r.today + r.tomorrow <= c.today + c.tomorrow + 1
    ensures r.today > c.today <==> k == DueToday
    ensures r.tomorrow > c.tomorrow <==> k == DueTomorrow
  {
    match k
    case DueToday => Counts(c.today + 1, c.tomorrow)
    case DueTomorrow => Counts(c.today, c.tomorrow + 1)
    case _ => c
  }

  lemma BumpCommutesWithPlus(c: Counts, d: Counts, k: Class)
    ensures Bump(c.Plus(d), k) == c.Plus(Bump(d, k))
  {
  }

  /** The scan over all appointments, in order; each bumps at most one counter. */
  function Tally(appts: seq<Appointment>, todayText: string, tomorrowText: string): (c: Counts)
    ensures c.today + c.tomorrow <= |appts|
  {
    if |appts| == 0 then Counts(0, 0)
    else
      Bump(Tally(appts[..|appts| - 1], todayText, tomorrowText),
           Classify(appts[|appts| - 1].date, todayText, tomorrowText))
  }

  /** Reference count: the appointments whose date text denotes the day `d`. */
  function CountOn(appts: seq<Appointment>, d: Date): (n: nat)
    ensures n <= |appts|
    ensures n > 0 ==> exists i :: 0 <= i < |appts| && Parse(appts[i].date) == Some(d)
  {
    if |appts| == 0 then 0
    else CountOn(appts[..|appts| - 1], d) + (if Parse(appts[|appts| - 1].date) == Some(d) then 1 else 0)
  }

  // ---------------------------------------------------------------------
  // The reminder text.

  const TodayLabel := "Today: "
  const TodaySuffix := " appointment(s)\n"
  const TomorrowLabel := "Tomorrow: "
  const TomorrowSuffix := " appointment(s)"

  /**
   * The message shown in the dialog: a "Today" line when today's count is
   * positive, then a "Tomorrow" line when tomorrow's is; nothing when both
   * are zero.
   */
  function ReminderText(today: nat, tomorrow: nat): (r: Option<string>)
    ensures r.Some? <==> today > 0 || tomorrow > 0
    ensures r.Some? ==> (TodayLabel <= r.value <==> today > 0)
    ensures r.Some? && today == 0 ==> TomorrowLabel <= r.value
  {
    if today == 0 && tomorrow == 0 then None
    else
      var todayLine := if today > 0 then TodayLabel + FromNat(today) + TodaySuffix else "";
      var tomorrowLine := if tomorrow > 0 then TomorrowLabel + FromNat(tomorrow) + TomorrowSuffix else "";
      assert today > 0 ==> (todayLine + tomorrowLine)[..|TodayLabel|] == TodayLabel;
      assert today == 0 ==> (todayLine + tomorrowLine)[..|TomorrowLabel|] == TomorrowLabel;
      assert today == 0 ==> (todayLine + tomorrowLine)[2] == 'm' != TodayLabel[2];
      Some(todayLine + tomorrowLine)
  }

  /**
   * Reads `<tag><count><suffix>` from the front of `s`: a positive count
   * written without leading zeros, and what follows the suffix.
   */
  function ReadLine(s: string, tag: string, suffix: string): (r: Option<(nat, string)>)
    ensures r.Some? ==> r.value.0 > 0
    ensures r.Some? ==> s == tag + FromNat(r.value.0) + suffix + r.value.1
  {
    if !(tag <= s) then None
    else
      var body := s[|tag|..];
      var k := DigitRun(body);
      if k == 0 || body[0] == '0' || !(suffix <= body[k..]) then None
      else
        var digits := body[..k];
        assert digits[0] == body[0];
        CanonicalIsFromNat(digits);
        assert Value(digits) > 0 by {
          if Value(digits) == 0 {
            ZeroValueIsAllZeros(digits);
          }
        }
        var rest := body[k + |suffix|..];
        assert body == digits + suffix + rest;
        assert s == tag + body;
        Some((Value(digits), rest))
  }

  /**
   * Recovers the two counts from a reminder text: an optional Today line,
   * then an optional Tomorrow line, at least one of them, each with a
   * positive count.
   */
  function ReadReminder(msg: string): (r: Option<(nat, nat)>)
    ensures r.Some? ==> r.value.0 > 0 || r.value.1 > 0
  {
    var todayPart := if TodayLabel <= msg then ReadLine(msg, TodayLabel, TodaySuffix) else Some((0, msg));
    match todayPart
    case None => None
    case Some((today, rest)) =>
      if |rest| == 0 then (if today > 0 then Some((today, 0)) else None)
      else
        match ReadLine(rest, TomorrowLabel, TomorrowSuffix)
        case Some((tomorrow, tail)) => if |tail| == 0 then Some((today, tomorrow)) else None
        case None => None
  }

  /** Reading a line written with `FromNat` gives back the number and the rest. */
  lemma ReadWrittenLine(n: nat, tag: string, suffix: string, rest: string)
    requires n > 0
    requires |suffix| > 0 && !IsDigit(suffix[0])
    ensures ReadLine(tag + FromNat(n) + suffix + rest, tag, suffix) == Some((n, rest))
  {
    var digits := FromNat(n);
    assert digits[0] != '0' by {
      if |digits| == 1 {
        assert digits[..0] == [];
        assert Value(digits) == DigitValue(digits[0]);
      }
    }
    var s := tag + digits + suffix + rest;
    assert s[..|tag|] == tag;
    var body := s[|tag|..];
    assert body == digits + (suffix + rest);
    DigitRunOfPrefix(digits, suffix + rest);
    assert body[..|digits|] == digits;
    assert body[|digits|..] == suffix + rest;
    assert (suffix + rest)[..|suffix|] == suffix;
    assert body[|digits| + |suffix|..] == rest;
  }

  /** The reminder text carries both counts, the Today line first: reading it back gives them. */
  lemma ReminderRoundTrip(today: nat, tomorrow: nat)
    requires today > 0 || tomorrow > 0
    ensures ReadReminder(ReminderText(today, tomorrow).value) == Some((today, tomorrow))
  {
    var msg := ReminderText(today, tomorrow).value;
    var tomorrowLine := if tomorrow > 0 then TomorrowLabel + FromNat(tomorrow) + TomorrowSuffix else "";
    if tomorrow > 0 {
      ReadWrittenLine(tomorrow, TomorrowLabel, TomorrowSuffix, "");
      assert tomorrowLine + "" == tomorrowLine;
    }
    if today > 0 {
      ReadWrittenLine(today, TodayLabel, TodaySuffix, tomorrowLine);
      assert msg == TodayLabel + FromNat(today) + TodaySuffix + tomorrowLine;
    } else {
      assert msg == tomorrowLine;
    }
  }

  /**
   * The other direction: every text the reader accepts is exactly the
   * reminder for the counts it reads. So a line for a zero count never
   * appears, a count never carries a leading zero, and the Today line never
   * follows the Tomorrow line.
   */
  lemma ReadReminderOnlyReadsReminders(msg: string, today: nat, tomorrow: nat)
    requires ReadReminder(msg) == Some((today, tomorrow))
    ensures ReminderText(today, tomorrow) == Some(msg)
  {
    var todayLine := if today > 0 then TodayLabel + FromNat(today) + TodaySuffix else "";
    var tomorrowLine := if tomorrow > 0 then TomorrowLabel + FromNat(tomorrow) + TomorrowSuffix else "";
    var rest;
    if TodayLabel <= msg {
      var line := ReadLine(msg, TodayLabel, TodaySuffix);
      rest := line.value.1;
      assert msg == todayLine + rest;
    } else {
      rest := msg;
      assert msg == todayLine + rest;
    }
    if |rest| == 0 {
      assert rest == tomorrowLine;
    } else {
      var line := ReadLine(rest, TomorrowLabel, TomorrowSuffix);
      assert rest == TomorrowLabel + FromNat(tomorrow) + TomorrowSuffix + line.value.1;
      assert line.value.1 == [];
      assert rest == tomorrowLine;
    }
    assert msg == todayLine + tomorrowLine;
  }

  // ---------------------------------------------------------------------
  // The check.

  /** What one firing of the check yields. */
  datatype Outcome =
    | Skipped
    | Checked(todayCount: nat, tomorrowCount: nat, reminder: Option<string>)

  /**
   * One call of the check at the moment `now`. With no appointments or no
   * signed-in role it returns at once; otherwise it counts the appointments
   * dated today and tomorrow and composes the reminder.
   */
  function Check(appts: seq<Appointment>, role: Option<string>, now: Instant): (r: Outcome)
    requires ValidInstant(now)
    ensures r.Skipped? <==> |appts| == 0 || role.None?
    ensures r.Checked? ==> r.todayCount == CountOn(appts, now.date)
    ensures r.Checked? ==> r.tomorrowCount == CountOn(appts, NextDay(now.date))
    ensures r.Checked? ==> r.todayCount + r.tomorrowCount <= |appts|
    ensures r.Checked? ==> (r.reminder.Some? <==> r.todayCount > 0 || r.tomorrowCount > 0)
    ensures r.Checked? ==> r.reminder == ReminderText(r.todayCount, r.tomorrowCount)
  {
    if |appts| == 0 || role.None? then Skipped
    else
      var todayText := Format(now.date);
      var tomorrowText := Format(AddOneDay(now).date);
      var c := Tally(appts, todayText, tomorrowText);
      TallyCountsDates(appts, now.date);
      Checked(c.today, c.tomorrow, ReminderText(c.today, c.tomorrow))
  }

  // ---------------------------------------------------------------------
  // Properties of the scan.

  /**
   * Comparing formatted text is comparing days: an appointment is counted
   * for today exactly when its date is today, for tomorrow exactly when it is
   * tomorrow, and skipped exactly when its text does not parse.
   */
  lemma ClassifyMeaning(date: string, today: Date)
    requires ValidDate(today)
    ensures var c := Classify(date, Format(today), Format(NextDay(today)));
      && (c == DueToday <==> Parse(date) == Some(today))
      && (c == DueTomorrow <==> Parse(date) == Some(NextDay(today)))
      && (c == Unparseable <==> Parse(date).None?)
  {
    if Parse(date).Some? {
      var d := Parse(date).value;
      FormatIsInjective(d, today);
      FormatIsInjective(d, NextDay(today));
    }
  }

  /** The string-matching scan computes the day counts of the reference definition. */
  lemma {:induction false} TallyCountsDates(appts: seq<Appointment>, today: Date)
    requires ValidDate(today)
    ensures Tally(appts, Format(today), Format(NextDay(today)))
         == Counts(CountOn(appts, today), CountOn(appts, NextDay(today)))
  {
    if |appts| > 0 {
      TallyCountsDates(appts[..|appts| - 1], today);
      ClassifyMeaning(appts[|appts| - 1].date, today);
    }
  }

  /** The scan of a concatenation adds the scans of the parts. */
  lemma {:induction false} TallyAppend(a: seq<Appointment>, b: seq<Appointment>, todayText: string, tomorrowText: string)
    ensures Tally(a + b, todayText, tomorrowText)
         == Tally(a, todayText, tomorrowText).Plus(Tally(b, todayText, tomorrowText))
    decreases |b|
  {
    if |b| == 0 {
      assert a + b == a;
      assert Tally(b, todayText, tomorrowText) == Counts(0, 0);
    } else {
      var init, last := b[..|b| - 1], b[|b| - 1];
      assert b == init + [last];
      assert a + b == (a + init) + [last];
      var k := Classify(last.date, todayText, tomorrowText);
      TallyOfSnoc(a + init, last, todayText, tomorrowText);
      TallyOfSnoc(init, last, todayText, tomorrowText);
      TallyAppend(a, init, todayText, tomorrowText);
      BumpCommutesWithPlus(Tally(a, todayText, tomorrowText), Tally(init, todayText, tomorrowText), k);
    }
  }

  /** Scanning one more appointment applies one more step. */
  lemma TallyOfSnoc(s: seq<Appointment>, x: Appointment, todayText: string, tomorrowText: string)
    ensures Tally(s + [x], todayText, tomorrowText)
         == Bump(Tally(s, todayText, tomorrowText), Classify(x.date, todayText, tomorrowText))
  {
    assert (s + [x])[..|s|] == s;
  }

  /**
   * An appointment whose date does not parse changes neither count, wherever
   * it stands, and the appointments after it are still scanned.
   */
  lemma UnparseableIsSkipped(before: seq<Appointment>, bad: Appointment, after: seq<Appointment>,
                             todayText: string, tomorrowText: string)
    requires Parse(bad.date).None?
    ensures Tally(before + [bad] + after, todayText, tomorrowText)
         == Tally(before + after, todayText, tomorrowText)
  {
    TallyAppend(before + [bad], after, todayText, tomorrowText);
    TallyAppend(before, [bad], todayText, tomorrowText);
    TallyAppend(before, after, todayText, tomorrowText);
    assert [bad][..0] == [];
  }

  /**
   * Only the parsed day matters: two appointment lists whose date texts parse
   * alike, position by position, are counted alike.
   */
  lemma {:induction false} TallyRespectsNormalisation(a: seq<Appointment>, b: seq<Appointment>,
                                                      todayText: string, tomorrowText: string)
    requires |a| == |b|
    requires forall i :: 0 <= i < |a| ==> Parse(a[i].date) == Parse(b[i].date)
    ensures Tally(a, todayText, tomorrowText) == Tally(b, todayText, tomorrowText)
  {
    if |a| > 0 {
      var x, y := a[|a| - 1].date, b[|b| - 1].date;
      TallyRespectsNormalisation(a[..|a| - 1], b[..|b| - 1], todayText, tomorrowText);
      ClassifyRespectsParse(x, y, todayText, tomorrowText);
    }
  }

  /** Two date texts that parse alike are classified alike. */
  lemma ClassifyRespectsParse(x: string, y: string, todayText: string, tomorrowText: string)
    requires Parse(x) == Parse(y)
    ensures Classify(x, todayText, tomorrowText) == Classify(y, todayText, tomorrowText)
  {
  }

  /** No appointment is counted on two different days. */
  lemma {:induction false} DistinctDaysShareNoAppointment(appts: seq<Appointment>, d: Date, e: Date)
    requires d != e
    ensures CountOn(appts, d) + CountOn(appts, e) <= |appts|
  {
    if |appts| > 0 {
      DistinctDaysShareNoAppointment(appts[..|appts| - 1], d, e);
    }
  }

  /** The time of day at which the check fires never changes its result. */
  lemma TimeOfDayIsIgnored(appts: seq<Appointment>, role: Option<string>, t1: Instant, t2: Instant)
    requires ValidInstant(t1) && ValidInstant(t2)
    requires t1.date == t2.date
    ensures Check(appts, role, t1) == Check(appts, role, t2)
  {
  }

  /** One appointment today and one tomorrow: both counted once, both lines shown. */
  lemma OneTodayOneTomorrow(appts: seq<Appointment>, role: string, now: Instant)
    requires ValidInstant(now)
    requires |appts| == 2
    requires Parse(appts[0].date) == Some(now.date)
    requires Parse(appts[1].date) == Some(NextDay(now.date))
    ensures Check(appts, Some(role), now)
      == Checked(1, 1, Some("Today: 1 appointment(s)\nTomorrow: 1 appointment(s)"))
  {
    var today, tomorrow := now.date, NextDay(now.date);
    assert today != tomorrow;
    CountOnPair(appts, today);
    CountOnPair(appts, tomorrow);
    var r := Check(appts, Some(role), now);
    assert r == Checked(1, 1, ReminderText(1, 1));
    OneOfEachText();
  }

  lemma CountOnPair(appts: seq<Appointment>, d: Date)
    requires |appts| == 2
    ensures CountOn(appts, d)
         == (if Parse(appts[0].date) == Some(d) then 1 else 0) + (if Parse(appts[1].date) == Some(d) then 1 else 0)
  {
    var first := appts[..1];
    assert appts[..|appts| - 1] == first;
    assert first[..|first| - 1] == [];
    assert first[|first| - 1] == appts[0];
    assert CountOn(first, d) == if Parse(appts[0].date) == Some(d) then 1 else 0;
  }

  lemma OneOfEachText()
    ensures ReminderText(1, 1) == Some("Today: 1 appointment(s)\nTomorrow: 1 appointment(s)")
  {
    OneIsWrittenOne();
    var todayLine := "Today: 1 appointment(s)\n";
    var tomorrowLine := "Tomorrow: 1 appointment(s)";
    assert TodayLabel + FromNat(1) + TodaySuffix == todayLine;
    assert TomorrowLabel + FromNat(1) + TomorrowSuffix == tomorrowLine;
    assert todayLine + tomorrowLine == "Today: 1 appointment(s)\nTomorrow: 1 appointment(s)";
  }

  lemma OneIsWrittenOne()
    ensures FromNat(1) == "1"
  {
  }

  /** Appointments on no day near today: both counts zero and no reminder. */
  lemma NothingDueMeansNoReminder(appts: seq<Appointment>, role: string, now: Instant)
    requires ValidInstant(now) && |appts| > 0
    requires forall i :: 0 <= i < |appts| ==>
      Parse(appts[i].date) != Some(now.date) && Parse(appts[i].date) != Some(NextDay(now.date))
    ensures Check(appts, Some(role), now) == Checked(0, 0, None)
  {
    NotDueCountsZero(appts, now.date);
    NotDueCountsZero(appts, NextDay(now.date));
  }

  lemma {:induction false} NotDueCountsZero(appts: seq<Appointment>, d: Date)
    requires forall i :: 0 <= i < |appts| ==> Parse(appts[i].date) != Some(d)
    ensures CountOn(appts, d) == 0
  {
    if |appts| > 0 {
      NotDueCountsZero(appts[..|appts| - 1], d);
    }
  }
}
