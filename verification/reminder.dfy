/** `scheduleDailyReminder` of utils/notifications.js: reads the stored
    `daily_time` setting, falls back to 09:00, and replaces every scheduled
    notification with one trigger repeating daily at that time.

    The platform and the setting's value are parameters; the calls the
    function makes on the settings store and the notification service are
    its result, in order. */
module Reminder {
  import opened Base
  import opened Strings
  import opened Numbers

  /** A call made by the function, in the order it is made. */
  datatype Call =
    | GetSetting(key: string)
    | CancelAllScheduled
    | ScheduleRepeating(hour: Number, minute: Number)

  const DefaultHour: int := 9
  const DefaultMinute: int := 0

  /** The hour and minute read from the setting's value: the 09:00 default
      unless the value is truthy and splits on `':'` into exactly two
      parts, in which case each part goes through `parseInt(part, 10)`,
      without range checks and without falling back on NaN. */
  function ReminderTime(timeStr: Option<string>): (r: (Number, Number))
    ensures timeStr.None? || timeStr.value == "" || Occurrences(timeStr.value, ':') != 1 ==>
              r == (Int(DefaultHour), Int(DefaultMinute))
    ensures timeStr.Some? && timeStr.value != "" && Occurrences(timeStr.value, ':') == 1 ==>
              var parts := Split(timeStr.value, ':');
              && Join(parts, ':') == timeStr.value && ':' !in parts[0] && ':' !in parts[1]
              && r == (ParseInt(parts[0], 10), ParseInt(parts[1], 10))
  {
    var hour := Int(DefaultHour);
    var minute := Int(DefaultMinute);
    match timeStr
    case None => (hour, minute)
    case Some(s) =>
      if s == "" then (hour, minute)
      else
        var parts := Split(s, ':');
        SplitJoin(s, ':');
        if |parts| == 2 then (ParseInt(parts[0], 10), ParseInt(parts[1], 10))
        else (hour, minute)
  }

  /** `scheduleDailyReminder()`: nothing at all on the web; elsewhere one
      read of `daily_time`, which resolves to `timeStr`, then the
      cancellation of every scheduled notification, then exactly one daily
      trigger. */
  function ScheduleDailyReminder(isWeb: bool, timeStr: Option<string>): (calls: seq<Call>)
    ensures isWeb <==> calls == []
    ensures !isWeb ==>
              && |calls| == 3
              && calls[0] == GetSetting("daily_time")
              && calls[1] == CancelAllScheduled
              && calls[2] == ScheduleRepeating(ReminderTime(timeStr).0, ReminderTime(timeStr).1)
  {
    if isWeb then []
    else
      var (hour, minute) := ReminderTime(timeStr);
      [GetSetting("daily_time"), CancelAllScheduled, ScheduleRepeating(hour, minute)]
  }

  /** A setting with exactly one colon is read as the two numbers around
      it. */
  lemma ReminderTimeOfParts(a: string, b: string)
    requires ':' !in a && ':' !in b
    ensures ReminderTime(Some(a + [':'] + b)) == (ParseInt(a, 10), ParseInt(b, 10))
  {
    SplitOnce(a, b, ':');
    assert (a + [':'] + b)[|a|] == ':';
  }

  /** A run of decimal digits reads as its value. */
  lemma ParseDigitText(d: string)
    requires |d| > 0 && AllDigits(d)
    ensures ParseInt(d, 10) == Int(DigitsValue(d))
  {
    PositiveDigits(d, "", 10);
    assert d + "" == d;
  }

  lemma DigitsHaveNoColon(d: string)
    requires AllDigits(d)
    ensures ':' !in d
  {
    assert forall i :: 0 <= i < |d| ==> d[i] != ':';
  }

  /** A setting written as `H:MM` (or `HH:MM`) is read back as the hour and
      minute it shows. */
  lemma TimeRoundTrip(h: nat, m: nat)
    requires m < 100
    ensures ReminderTime(Some(DecimalText(h) + [':'] + Digits(m, 2))) == (Int(h), Int(m))
  {
    var hh := DecimalText(h);
    var mm := Digits(m, 2);
    DecimalTextRoundTrip(h);
    DigitsRoundTrip(m, 2);
    DigitsHaveNoColon(hh);
    DigitsHaveNoColon(mm);
    ReminderTimeOfParts(hh, mm);
    ParseDigitText(hh);
    ParseDigitText(mm);
  }

  /** Hours and minutes are not range-checked: "25:99" schedules 25:99. */
  lemma NoRangeCheck()
    ensures ReminderTime(Some("25:99")) == (Int(25), Int(99))
  {
    assert DecimalText(25) == "25" by {
      assert Width(25) == 2;
    }
    assert Digits(99, 2) == "99";
    assert "25:99" == DecimalText(25) + [':'] + Digits(99, 2);
    TimeRoundTrip(25, 99);
  }

  /** A part that is not a number gives NaN, not the default. */
  lemma NaNNotDefaulted()
    ensures ReminderTime(Some("ab:cd")) == (NaN, NaN)
  {
    assert "ab:cd" == "ab" + [':'] + "cd";
    ReminderTimeOfParts("ab", "cd");
    LetterFirstIsNaN("ab");
    LetterFirstIsNaN("cd");
  }

  /** Text that starts with a letter reads as NaN in base 10. */
  lemma LetterFirstIsNaN(s: string)
    requires |s| > 0 && 'a' <= s[0] <= 'z'
    ensures ParseInt(s, 10) == NaN
  {
    NothingToTrim(s);
    ParseIntWithoutDigits(s, 10);
  }

  /** Missing, empty, colon-free and twice-colonned settings all give
      09:00. */
  lemma DefaultCases()
    ensures ReminderTime(None) == (Int(9), Int(0))
    ensures ReminderTime(Some("")) == (Int(9), Int(0))
    ensures ReminderTime(Some("0930")) == (Int(9), Int(0))
    ensures ReminderTime(Some("9:30:00")) == (Int(9), Int(0))
  {
    assert Occurrences("0930", ':') == 0;
    assert Occurrences("9:30:00", ':') == 2;
  }
}
