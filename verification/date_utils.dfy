/** The date helpers of utils/dateUtils.js: shifting, ISO and French
    formatting, counting days until a due date, and classifying that due
    date for the vaccination alerts.

    "Today" is a parameter: the source reads the clock with `new Date()`.
    The UTC offset is fixed at zero, so an ISO date-only string, which
    JavaScript reads as UTC midnight, names the same calendar day that the
    local getters report. */
module DateUtils {
  import opened Base
  import opened Strings
  import opened Numbers
  import opened Calendar

  /** A JavaScript `Date` object, at day granularity. */
  datatype JsDate = InvalidDate | DateOn(date: CivilDate)

  /** What the helpers are handed: `null`, a string, or a `Date` object. */
  datatype DateArg = Missing | Text(s: string) | Moment(m: JsDate)

  /** `!arg`: `null` and the empty string are falsy; a `Date` object,
      even an invalid one, is not. */
  predicate IsFalsy(a: DateArg) {
    a.Missing? || (a.Text? && a.s == "")
  }

  /** `ALERT_THRESHOLD_DAYS` of utils/constants.js, the "soon" window that
      dateUtils.js and db.js write out as the literal 7. */
  const AlertThresholdDays: int := 7

  // ---------------------------------------------------------------------
  // Text forms of a date
  // ---------------------------------------------------------------------

  /** `String(n).padStart(2, '0')` */
  function Pad2(n: nat): string {
    PadStart(DecimalText(n), 2, '0')
  }

  /** `${year}-${month}-${day}` as formatDateISO builds it: the year is
      printed as is (not padded), month and day are padded to two digits. */
  function IsoText(d: CivilDate): string {
    IntText(d.year) + "-" + Pad2(d.month) + "-" + Pad2(d.day)
  }

  /** `${day}/${month}/${year}` as formatDateFR builds it. */
  function FrText(d: CivilDate): string {
    Pad2(d.day) + "/" + Pad2(d.month) + "/" + IntText(d.year)
  }

  /** Years that print with exactly four digits; for them `IsoText` is a
      well-formed `YYYY-MM-DD` string. */
  predicate FourDigitYear(d: Date) {
    1000 <= d.year <= 9999
  }

  /** `new Date(s)` for the date-only ISO form `YYYY-MM-DD`: four-digit
      year, two-digit month and day, naming a day that exists. Anything
      else reads as an invalid date. */
  function ParseIso(s: string): Option<CivilDate> {
    if |s| == 10 && s[4] == '-' && s[7] == '-'
       && AllDigits(s[..4]) && AllDigits(s[5..7]) && AllDigits(s[8..])
    then
      var d := Date(DigitsValue(s[..4]), DigitsValue(s[5..7]), DigitsValue(s[8..]));
      if Valid(d) then Some(d) else None
    else None
  }

  /** `new Date(arg)`. `new Date(null)` is time value 0, 1970-01-01. */
  function NewDate(a: DateArg): JsDate {
    match a
    case Missing => DateOn(Epoch)
    case Text(s) => (match ParseIso(s) case Some(d) => DateOn(d) case None => InvalidDate)
    case Moment(m) => m
  }

  /** With a four-digit year, the ISO text is the zero-padded fields
      joined by dashes. */
  lemma IsoLayout(d: CivilDate)
    requires FourDigitYear(d)
    ensures IsoText(d) == Digits(d.year, 4) + ("-" + (Digits(d.month, 2) + ("-" + Digits(d.day, 2))))
  {
    FourDigitText(d.year);
    PadTwoDigits(d.month);
    PadTwoDigits(d.day);
  }

  /** Reading the ISO text back gives the date it was printed from. */
  lemma IsoRoundTrip(d: CivilDate)
    requires FourDigitYear(d)
    ensures ParseIso(IsoText(d)) == Some(d)
  {
    IsoLayout(d);
    var s := IsoText(d);
    assert s[..4] == Digits(d.year, 4);
    assert s[5..7] == Digits(d.month, 2);
    assert s[8..] == Digits(d.day, 2);
    DigitsRoundTrip(d.year, 4);
    DigitsRoundTrip(d.month, 2);
    DigitsRoundTrip(d.day, 2);
  }

  /** Distinct dates print differently. */
  lemma IsoInjective(a: CivilDate, b: CivilDate)
    requires FourDigitYear(a) && FourDigitYear(b)
    requires IsoText(a) == IsoText(b)
    ensures a == b
  {
    IsoRoundTrip(a);
    IsoRoundTrip(b);
  }

  /** Comparing two texts that start with the same character compares the
      rest. */
  lemma SamePrefixLess(c: string, x: string, y: string)
    ensures StrLess(c + x, c + y) <==> StrLess(x, y)
  {
    StrLessConcat(c, x, c, y);
    StrLessIrreflexive(c);
  }

  /** Zero-padded ISO strings order as the dates they encode, so the
      text comparisons of the alert queries are date comparisons. */
  lemma IsoOrder(a: CivilDate, b: CivilDate)
    requires FourDigitYear(a) && FourDigitYear(b)
    ensures StrLess(IsoText(a), IsoText(b)) <==> DayNumber(a) < DayNumber(b)
  {
    IsoLayout(a);
    IsoLayout(b);
    var da := Digits(a.day, 2);
    var db := Digits(b.day, 2);
    var ma := Digits(a.month, 2) + ("-" + da);
    var mb := Digits(b.month, 2) + ("-" + db);
    SamePrefixLess("-", da, db);
    SamePrefixLess("-", ma, mb);
    StrLessConcat(Digits(a.month, 2), "-" + da, Digits(b.month, 2), "-" + db);
    StrLessConcat(Digits(a.year, 4), "-" + ma, Digits(b.year, 4), "-" + mb);
    DigitsOrder(a.year, b.year, 4);
    DigitsOrder(a.month, b.month, 2);
    DigitsOrder(a.day, b.day, 2);
    if Digits(a.year, 4) == Digits(b.year, 4) {
      DigitsInjective(a.year, b.year, 4);
    }
    if Digits(a.month, 2) == Digits(b.month, 2) {
      DigitsInjective(a.month, b.month, 2);
    }
    DayNumberOrder(a, b);
  }

  /** The non-strict form: `<=` on ISO strings is `<=` on dates. */
  lemma IsoOrderEq(a: CivilDate, b: CivilDate)
    requires FourDigitYear(a) && FourDigitYear(b)
    ensures StrLessEq(IsoText(a), IsoText(b)) <==> DayNumber(a) <= DayNumber(b)
  {
    IsoOrder(a, b);
    if IsoText(a) == IsoText(b) {
      IsoInjective(a, b);
    }
    if DayNumber(a) == DayNumber(b) {
      DayNumberInjective(a, b);
    }
  }

  // ---------------------------------------------------------------------
  // addDays, formatDateISO, formatDateFR
  // ---------------------------------------------------------------------

  /** `addDays(date, n)`: a copy of `new Date(date)` moved by `n` days with
      `setDate`. An invalid date stays invalid (`setDate` on NaN is NaN). */
  function ShiftDays(a: DateArg, n: int): (r: JsDate)
    ensures r.InvalidDate? <==> NewDate(a).InvalidDate?
    ensures r.DateOn? ==> DayNumber(r.date) == DayNumber(NewDate(a).date) + n
  {
    match NewDate(a)
    case InvalidDate => InvalidDate
    case DateOn(d) => DateOn(AddDays(d, n))
  }

  /** `formatDateISO(date)`: `null` for a falsy or unparseable argument,
      otherwise the `YYYY-MM-DD` text of the date, which reads back as the
      same date. */
  function FormatDateIso(a: DateArg): (r: Option<string>)
    ensures r.None? <==> IsFalsy(a) || NewDate(a).InvalidDate?
    ensures r.Some? && FourDigitYear(NewDate(a).date) ==>
              |r.value| == 10 && ParseIso(r.value) == Some(NewDate(a).date)
  {
    if IsFalsy(a) then None
    else match NewDate(a)
      case InvalidDate => None
      case DateOn(d) =>
        assert FourDigitYear(d) ==> |IsoText(d)| == 10 && ParseIso(IsoText(d)) == Some(d) by {
          if FourDigitYear(d) {
            IsoRoundTrip(d);
            IsoLayout(d);
          }
        }
        Some(IsoText(d))
  }

  /** `formatDateFR(dateString)`: `'-'` for a falsy or unparseable
      argument, otherwise the `DD/MM/YYYY` text of the date. */
  function FormatDateFr(a: DateArg): (r: string)
    ensures r == "-" <==> IsFalsy(a) || NewDate(a).InvalidDate?
    ensures !IsFalsy(a) && NewDate(a).DateOn? ==> r == FrText(NewDate(a).date)
  {
    if IsFalsy(a) then "-"
    else match NewDate(a)
      case InvalidDate => "-"
      case DateOn(d) =>
        assert |Pad2(d.day)| >= 2;
        FrText(d)
  }

  /** `new Date(formatDateISO(d))` is `d` again. */
  lemma NewDateOfIso(d: CivilDate)
    requires FourDigitYear(d)
    ensures !IsFalsy(Text(IsoText(d)))
    ensures NewDate(Text(IsoText(d))) == DateOn(d)
  {
    IsoRoundTrip(d);
    IsoLayout(d);
  }

  /** `formatDateFR(formatDateISO(d))`, as the add-edit and detail screens
      display a picked date: the French text shows the same day, month and
      year. */
  lemma FrOfIso(d: CivilDate)
    requires FourDigitYear(d)
    ensures FormatDateIso(Moment(DateOn(d))) == Some(IsoText(d))
    ensures FormatDateFr(Text(IsoText(d))) == FrText(d)
  {
    NewDateOfIso(d);
  }

  /** With a four-digit year, the French text is the zero-padded day,
      month and year joined by slashes. */
  lemma FrLayout(d: CivilDate)
    requires FourDigitYear(d)
    ensures FrText(d) == Digits(d.day, 2) + ("/" + (Digits(d.month, 2) + ("/" + Digits(d.year, 4))))
  {
    FourDigitText(d.year);
    PadTwoDigits(d.month);
    PadTwoDigits(d.day);
  }

  /** The French text is ten characters, `DD/MM/YYYY`, and its three
      digit groups read back as the day, the month and the year. */
  lemma FrReadBack(d: CivilDate)
    requires FourDigitYear(d)
    ensures var s := FrText(d);
            && |s| == 10 && s[2] == '/' && s[5] == '/'
            && AllDigits(s[..2]) && AllDigits(s[3..5]) && AllDigits(s[6..])
            && DigitsValue(s[..2]) == d.day
            && DigitsValue(s[3..5]) == d.month
            && DigitsValue(s[6..]) == d.year
  {
    FrLayout(d);
    var s := FrText(d);
    assert s[..2] == Digits(d.day, 2);
    assert s[3..5] == Digits(d.month, 2);
    assert s[6..] == Digits(d.year, 4);
    DigitsRoundTrip(d.day, 2);
    DigitsRoundTrip(d.month, 2);
    DigitsRoundTrip(d.year, 4);
  }

  /** Distinct dates are displayed differently. */
  lemma FrInjective(a: CivilDate, b: CivilDate)
    requires FourDigitYear(a) && FourDigitYear(b)
    requires FrText(a) == FrText(b)
    ensures a == b
  {
    FrReadBack(a);
    FrReadBack(b);
  }

  // ---------------------------------------------------------------------
  // daysUntil and the due-date classification
  // ---------------------------------------------------------------------

  /** `daysUntil(dateString)` with `today` the current date: `null` for a
      falsy argument, NaN for an unparseable one, otherwise the whole
      number of days from today's midnight to the target's midnight. */
  function DaysUntil(a: DateArg, today: CivilDate): (r: Option<Number>)
    ensures r.None? <==> IsFalsy(a)
    ensures r == Some(NaN) <==> !IsFalsy(a) && NewDate(a).InvalidDate?
    ensures !IsFalsy(a) && NewDate(a).DateOn? ==>
              r == Some(Int(DayNumber(NewDate(a).date) - DayNumber(today)))
  {
    if IsFalsy(a) then None
    else match NewDate(a)
      case InvalidDate => Some(NaN)
      case DateOn(t) =>
        // both `Date`s sit at midnight, so their difference is whole days
        var diffTime := (DayNumber(t) - DayNumber(today)) * MsPerDay;
        Some(Int(CeilDays(diffTime)))
  }

  /** `days < k` in JavaScript: false when `days` is NaN. */
  predicate Below(days: Number, k: int) {
    days.Int? && days.value < k
  }

  /** `days <= k` in JavaScript: false when `days` is NaN. */
  predicate AtMost(days: Number, k: int) {
    days.Int? && days.value <= k
  }

  /** `days === k` in JavaScript: false when `days` is NaN. */
  predicate Is(days: Number, k: int) {
    days.Int? && days.value == k
  }

  /** `getVaccinationStatus(dateProchainString)`, as written: `'none'` for
      a falsy argument; `'overdue'`, `'soon'` or `'ok'` by the days left;
      and, because every comparison with NaN is false, `'ok'` for text
      that does not parse as a date. */
  function VaccinationStatus(a: DateArg, today: CivilDate): (r: string)
    ensures r == "none" <==> IsFalsy(a)
    ensures !IsFalsy(a) && NewDate(a).InvalidDate? ==> r == "ok"
    ensures !IsFalsy(a) && NewDate(a).DateOn? ==>
              var k := DayNumber(NewDate(a).date) - DayNumber(today);
              && (r == "overdue" <==> k < 0)
              && (r == "soon" <==> 0 <= k <= AlertThresholdDays)
              && (r == "ok" <==> k > AlertThresholdDays)
  {
    if IsFalsy(a) then "none"
    else
      var days := DaysUntil(a, today);
      if days.None? then "none"
      else if Below(days.value, 0) then "overdue"
      else if AtMost(days.value, 7) then "soon"
      else "ok"
  }

  /** `getVaccinationStatus` with unparseable text treated like a missing
      date: text that is not a date has no status. */
  function VaccinationStatusCorrected(a: DateArg, today: CivilDate): (r: string)
    ensures r == "none" <==> IsFalsy(a) || NewDate(a).InvalidDate?
    ensures !IsFalsy(a) && NewDate(a).DateOn? ==> r == VaccinationStatus(a, today)
  {
    if IsFalsy(a) || NewDate(a).InvalidDate? then "none"
    else VaccinationStatus(a, today)
  }

  /** The as-written classification calls a non-date "ok", the corrected
      one gives it no status. */
  lemma UnparseableDueDateIsOk(today: CivilDate)
    ensures VaccinationStatus(Text("pas une date"), today) == "ok"
    ensures VaccinationStatusCorrected(Text("pas une date"), today) == "none"
  {
    assert ParseIso("pas une date") == None;
  }

  /** The boundaries of the classification: one day late is overdue, due
      today and due in seven days are soon, eight days out is ok. */
  lemma StatusBoundaries(today: CivilDate)
    ensures VaccinationStatus(Moment(DateOn(AddDays(today, -1))), today) == "overdue"
    ensures VaccinationStatus(Moment(DateOn(AddDays(today, 0))), today) == "soon"
    ensures VaccinationStatus(Moment(DateOn(AddDays(today, 7))), today) == "soon"
    ensures VaccinationStatus(Moment(DateOn(AddDays(today, 8))), today) == "ok"
  {
  }

  const ColorOverdue: string := "#F44336"
  const ColorSoon: string := "#FF9800"
  const ColorOk: string := "#4CAF50"
  const ColorOther: string := "#9E9E9E"

  /** `getStatusColor(status)`: red, orange and green for the three alert
      states, grey for anything else, `'none'` included. */
  function StatusColor(status: string): (r: string)
    ensures status == "overdue" <==> r == ColorOverdue
    ensures status == "soon" <==> r == ColorSoon
    ensures status == "ok" <==> r == ColorOk
    ensures status != "overdue" && status != "soon" && status != "ok" <==> r == ColorOther
  {
    if status == "overdue" then ColorOverdue
    else if status == "soon" then ColorSoon
    else if status == "ok" then ColorOk
    else ColorOther
  }

  /** `Math.abs(k)` */
  function Abs(k: int): int {
    if k < 0 then -k else k
  }

  /** `getStatusText(dateProchainString)`. */
  function StatusText(a: DateArg, today: CivilDate): (r: string)
    ensures !IsFalsy(a) && NewDate(a).DateOn? ==>
              var k := DayNumber(NewDate(a).date) - DayNumber(today);
              && (k < 0 ==> r == "En retard (" + DecimalText(-k) + "j)")
              && (k == 0 ==> r == "Aujourd'hui")
              && (k == 1 ==> r == "Demain")
              && (2 <= k <= AlertThresholdDays ==> r == "Dans " + DecimalText(k) + " jours")
              && (k > AlertThresholdDays ==> r == "")
    ensures IsFalsy(a) || NewDate(a).InvalidDate? ==> r == ""
  {
    var days := DaysUntil(a, today);
    if days.None? then ""
    else if Below(days.value, 0) then "En retard (" + IntText(Abs(days.value.value)) + "j)"
    else if Is(days.value, 0) then "Aujourd'hui"
    else if Is(days.value, 1) then "Demain"
    else if AtMost(days.value, 7) then "Dans " + IntText(days.value.value) + " jours"
    else ""
  }

  /** The status text and the status agree: there is a text exactly when
      the due date is overdue or soon, whatever the argument. */
  lemma StatusTextMatchesStatus(a: DateArg, today: CivilDate)
    ensures StatusText(a, today) != "" <==> VaccinationStatus(a, today) in {"overdue", "soon"}
  {
  }

  /** `daysUntil(formatDateISO(addDays(today, n)))` is `n`. */
  lemma DaysUntilShift(today: CivilDate, n: int)
    requires FourDigitYear(AddDays(today, n))
    ensures FormatDateIso(Moment(DateOn(AddDays(today, n)))) == Some(IsoText(AddDays(today, n)))
    ensures DaysUntil(Text(IsoText(AddDays(today, n))), today) == Some(Int(n))
  {
    var d := AddDays(today, n);
    assert FormatDateIso(Moment(DateOn(d))) == Some(IsoText(d));
    DaysUntilIso(d, today);
  }

  /** The day count to a stored `YYYY-MM-DD` date is the difference of
      the day numbers. */
  lemma DaysUntilIso(d: CivilDate, today: CivilDate)
    requires FourDigitYear(d)
    ensures DaysUntil(Text(IsoText(d)), today) == Some(Int(DayNumber(d) - DayNumber(today)))
  {
    NewDateOfIso(d);
  }
}
