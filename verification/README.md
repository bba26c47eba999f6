# Appointment reminder check — a Dafny model

The clinic application raises an "Appointment Reminder" dialog from a timer.
Each firing runs `checkNotifications`, which:

1. returns at once when there are no appointments or no user role is set;
2. takes the current moment as "today" and adds one calendar day to get
   "tomorrow";
3. parses each appointment's `dd/MM/yyyy` date text, formats it again, and
   compares that text with the formatted today and tomorrow. A match with
   today increments the today counter. Otherwise, a match with tomorrow
   increments the tomorrow counter. A date that does not parse is skipped;
4. when either counter is positive, composes a message with a
   `Today: n appointment(s)` line and a `Tomorrow: n appointment(s)` line,
   each present only when its count is positive.

This project models one firing of that check as pure functions.

- `Wrappers` holds `Option`. It stands for `null` (no role) and for a caught
  `ParseException` (a date that does not parse).
- `Digits` holds decimal text. It covers the zero-padded fields that
  `SimpleDateFormat` writes, the digit runs it reads, and the digits
  `StringBuilder.append(int)` writes.
- `Calendar` holds Gregorian dates and `NextDay`, the step of
  `Calendar.add(Calendar.DATE, 1)`. It also gives a reference for `NextDay`:
  `Ordinal`, the number of days since 1 January 1583. `Ordinal` is built on
  the same month table as `NextDay`, so it checks the rollover logic, not the
  month lengths. Those are pinned separately: `DaysInMonth` states the
  knuckle rule for every month but February (odd months have 31 days up to
  July, even months from August on) and the leap-year rule for February.
- `DateFormat` holds `Format` and `Parse` for the pattern `dd/MM/yyyy`. Parse
  followed by format acts as a normalisation to a canonical text.
- `Reminders` holds the check itself. `Classify` is one loop iteration,
  `Tally` is the loop, `ReminderText` is the message, and `Check` is the whole
  call. `CountOn` is a reference count by calendar day. `ReadReminder` parses a
  message back into its counts.

Inputs the source reads from its surroundings become parameters. The
appointment list is `seq<Appointment>`, the role is `Option<string>`, and the
clock reading `new Date()` is an `Instant` (a date and a time of day). The
dialog is not shown; `Check` returns the message text instead.

## Model

| member | source | states |
|---|---|---|
| Calendar.DaysInMonth | HMSNeumorphicAppModern.java:56-58 | February has 29 days exactly in Gregorian leap years and 28 otherwise; every other month has 31 days when it is odd and at most July or even and at least August, and 30 days otherwise |
| Calendar.NextDay | HMSNeumorphicAppModern.java:56-59 | the day after a valid date is a valid date, and it comes strictly later in the calendar |
| Calendar.NextDayAddsOneDay | HMSNeumorphicAppModern.java:58 | adding one calendar day raises the day count since 1 January 1583 by exactly one, across month and year ends |
| Calendar.NextDayIsSuccessor | HMSNeumorphicAppModern.java:56-59 | "tomorrow" is the one and only valid date whose day count is one more than today's (both directions) |
| Calendar.DecemberEndsYear | HMSNeumorphicAppModern.java:58 | the twelve month lengths add up to the length of the year, 366 days in leap years and 365 otherwise |
| Calendar.FebruaryRollover | HMSNeumorphicAppModern.java:58 | 28 Feb goes to 29 Feb in leap years (2024, 2000) and to 1 Mar otherwise (2023, 1900); 30 Apr and 30 Jun end their months, 31 Jul goes to 1 Aug, and 31 Dec goes to 1 Jan of the next year |
| Digits.Padded | HMSNeumorphicAppModern.java:67-69 | a formatted field is all digits, at least as wide as the pattern asks, and reads back as the number written |
| Digits.FromNat | HMSNeumorphicAppModern.java:84-87 | a count appended to the message is canonical decimal text (no leading zero unless it is 0) that reads back as the count |
| Digits.CanonicalIsFromNat | HMSNeumorphicAppModern.java:84-87 | canonical decimal text is the only canonical way to write its number, so a count's text is determined by the count |
| DateFormat.FormatShape | HMSNeumorphicAppModern.java:67-69 | a formatted valid date is two digits, `/`, two digits, `/`, and the year in at least four digits (exactly four before 10000) |
| DateFormat.Parse | HMSNeumorphicAppModern.java:66 | every date the parser accepts is a valid calendar date no later than 292278994, the last year `GregorianCalendar` holds |
| DateFormat.ParseFields | HMSNeumorphicAppModern.java:66 | any three non-empty digit runs joined by `/` are read field by field, and the text is accepted exactly when the fields name a valid date no later than 292278994 |
| DateFormat.LongYearIsRefused | HMSNeumorphicAppModern.java:66 | a year beyond 292278994 is refused, whatever its digits |
| DateFormat.ParseFormat | HMSNeumorphicAppModern.java:66-69 | parsing a formatted date gives back the same date, for every year up to 292278994 |
| DateFormat.FormatIsInjective | HMSNeumorphicAppModern.java:67-71 | two dates format to equal text exactly when they are the same day, so comparing text is comparing days |
| DateFormat.NormaliseIsIdempotent | HMSNeumorphicAppModern.java:66-69 | parse-then-format is a normalisation: applying it to its own output changes nothing |
| DateFormat.UnpaddedFieldsAreRead | HMSNeumorphicAppModern.java:66 | `1/2/2024` parses to the same day as `01/02/2024` |
| Reminders.AddOneDay | HMSNeumorphicAppModern.java:55-59 | tomorrow keeps the time of day and is one calendar day after today |
| Reminders.TodayTextIsNotTomorrowText | HMSNeumorphicAppModern.java:67-75 | today's formatted text never equals tomorrow's, so the `else if` order never decides which counter an appointment moves |
| Reminders.Bump | HMSNeumorphicAppModern.java:71-75 | a step never lowers a counter, raises the total by at most one, raises today's counter iff the class is today and tomorrow's iff the class is tomorrow |
| Reminders.CountOn | HMSNeumorphicAppModern.java:61-79 | the reference count by calendar day never exceeds the list, and is positive only when some appointment is dated that day |
| Reminders.Tally | HMSNeumorphicAppModern.java:61-79 | the loop increments at most one counter per appointment, so today + tomorrow never exceeds the number of appointments |
| Reminders.ClassifyMeaning | HMSNeumorphicAppModern.java:64-78 | an appointment counts for today iff its date is today, for tomorrow iff its date is tomorrow, and is skipped iff its text does not parse |
| Reminders.TallyCountsDates | HMSNeumorphicAppModern.java:61-79 | the string-comparing loop yields exactly `CountOn` for today and `CountOn` for tomorrow: the number of appointments whose date parses to each day |
| Reminders.TallyAppend | HMSNeumorphicAppModern.java:64-79 | scanning two lists one after the other adds their counts |
| Reminders.UnparseableIsSkipped | HMSNeumorphicAppModern.java:65-78 | an appointment whose date does not parse changes neither count wherever it stands, and later appointments are still counted |
| Reminders.TallyRespectsNormalisation | HMSNeumorphicAppModern.java:66-71 | two lists whose date texts parse alike, position by position, get the same counts |
| Reminders.DistinctDaysShareNoAppointment | HMSNeumorphicAppModern.java:71-75 | no appointment is counted for two different days |
| Reminders.ReminderText | HMSNeumorphicAppModern.java:81-88 | a message exists iff a count is positive; it starts with the Today line iff today's count is positive, and otherwise starts with the Tomorrow line |
| Reminders.ReminderRoundTrip | HMSNeumorphicAppModern.java:81-88 | reading the message back gives both counts; the reader accepts only lines with a positive count without leading zeros, Today before Tomorrow |
| Reminders.ReadReminderOnlyReadsReminders | HMSNeumorphicAppModern.java:81-88 | every text the reader accepts is exactly the reminder for the counts it reads, so with the round trip the message has a Today line iff today's count is positive and a Tomorrow line iff tomorrow's is, in that order |
| Reminders.Check | HMSNeumorphicAppModern.java:51-92 | the call is skipped iff the list is empty or no role is set; otherwise it counts the appointments dated today and tomorrow, never more than the list holds, and a reminder exists iff a count is positive |
| Reminders.TimeOfDayIsIgnored | HMSNeumorphicAppModern.java:54-59 | two moments on the same day give the same result |
| Reminders.OneTodayOneTomorrow | HMSNeumorphicAppModern.java:51-92 | one appointment today and one tomorrow give counts 1 and 1 and the two-line message |
| Reminders.NothingDueMeansNoReminder | HMSNeumorphicAppModern.java:81 | when no appointment falls today or tomorrow, both counts are zero and there is no reminder |

## Left out

- The Swing window, card layout and placeholder panels (HMSNeumorphicAppModern.java:10-41) and `main`. These are user interface only.
- The `javax.swing.Timer` that fires every 300 000 ms after a 5 s delay (HMSNeumorphicAppModern.java:45-49). Only one firing of the check is modelled. Repeated firings are independent calls that may show the same reminder again.
- `JOptionPane.showMessageDialog` (HMSNeumorphicAppModern.java:89-90). The message text is returned instead of displayed.
- The system clock. `new Date()` is the `now` parameter of `Check`.
- Time zones and daylight-saving shifts. A moment is a local date plus a time of day.
- Locales. The date format and the calendar come from the default locale (HMSNeumorphicAppModern.java:54, 56). The model assumes that locale uses the Gregorian calendar and ASCII digits. A Buddhist-calendar locale such as `th_TH` would format today with year 2569, while the model reads such a text as the Gregorian year 2569.
- The other fields of an appointment. The check reads only `date`, so an `Appointment` holds only that.
- The check only reads the appointment list (HMSNeumorphicAppModern.java:51-92). This holds by construction: the list is an immutable sequence value, so no member states it separately.
- DateFormat.Parse: the default `SimpleDateFormat` is lenient, and the model is stricter. Java rolls an out-of-range day or month over into the next month or year, so `31/04/2024` becomes 1 May. It skips spaces and tabs before each numeric field, so ` 1/ 2/2024` parses. It accepts a leading minus sign on a field, and it ignores trailing text after the year. It reads any Unicode decimal digit, such as Arabic-Indic `١٠/١٠/٢٠٢٦` or fullwidth `١٠/١٠/٢٠٢٦`, even when leniency is off; the model reads ASCII digits only. The model reads only three digit runs joined by `/` that name a valid date. It returns None for all of the inputs above, so every date it accepts is one Java reads the same way.
- DateFormat.Parse: Java stores each numeric field through `intValue()`, which keeps only the low 32 bits of the value read. So `10/10/4294969322` (the year 2^32 + 2026) and `4294967306/10/2026` (the day 2^32 + 10) both parse in Java to 10 October 2026. The model reads each field at its full value and accepts only years up to 292278994, so it returns None for both; every field of a text it accepts fits a 32-bit `int` unchanged. A reminder Java would count for such a text is not counted by the model.
- DateFormat.ParseFields: it reads the digit runs at their full value and refuses a year above 292278994 (see `LongYearIsRefused`). It does not model Java's 32-bit wrap-around of a longer field, described in the line above.
- DateFormat.ParseFormat: it requires a year no later than 292278994. Java's calendar holds no later year, so a later date never comes from the clock; the model still writes such a year, and `FormatIsInjective` holds for every date.
- DateFormat.Parse: years before 1583 fall under the Julian calendar in `GregorianCalendar`. The model accepts only years from 1583 on, and returns None for earlier years.
- Reminders.Check: it requires a valid current moment (a date from 1583 on, a time of day within 24 hours). The clock cannot produce anything else in the modelled range.
