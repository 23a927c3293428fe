/**
 * The config flow's two normalisers for the window bounds: `_ensure_time`
 * turns whatever is stored (a `datetime.time`, a string or a number) into a
 * time of day for the form's default, and `_time_to_str` turns what the form
 * returns into the text stored in the entry.
 *
 * Home Assistant's `dt_util.parse_time` is the parameter `parseTime`, about
 * which nothing is assumed unless a lemma says so; Python's `int(float(x))`
 * on a string is the parameter `parseNumber`.
 */
module ConfigFlow {
  import opened Wrappers
  import opened Text
  import opened Const

  /** A `datetime.time` (microseconds are not modelled). */
  datatype Time = Time(hour: int, minute: int, second: int) {
    predicate Valid() { 0 <= hour < 24 && 0 <= minute < 60 && 0 <= second < 60 }
  }

  type TimeOfDay = t: Time | t.Valid() witness Time(0, 0, 0)

  const Midnight: TimeOfDay := Time(0, 0, 0)

  /**
   * A value reaching the normalisers, by its Python type: a `time`, a `str`,
   * a number (standing for the integer `int(float(x))` makes of it), or
   * anything else, such as `None`, on which `float` raises `TypeError`.
   */
  datatype FormValue = TimeValue(t: TimeOfDay) | TextValue(text: string) | NumberValue(n: int) | OtherValue

  /** `time(n % 24, 0)`. */
  function HourTime(n: int): (t: TimeOfDay)
    ensures t.minute == 0 && t.second == 0
    ensures (n - t.hour) % 24 == 0
  {
    Time(n % 24, 0, 0)
  }

  /**
   * `_ensure_time(value, default_value)`. A time is kept; a string is parsed
   * as a time, then as a number; a number gives that hour modulo 24 on the
   * hour; everything else gives the parsed default, or midnight.
   */
  function EnsureTime(value: FormValue, defaultValue: string,
                      parseTime: string -> Option<TimeOfDay>, parseNumber: NumberParser): (t: TimeOfDay)
    ensures value.TimeValue? ==> t == value.t
    ensures value.TextValue? && parseTime(value.text).Some? ==> t == parseTime(value.text).value
    ensures value.TextValue? && parseTime(value.text).None? && parseNumber(value.text).Some? ==>
              t.minute == 0 && t.second == 0 && (parseNumber(value.text).value - t.hour) % 24 == 0
    ensures value.NumberValue? ==> t.minute == 0 && t.second == 0 && (value.n - t.hour) % 24 == 0
    ensures value.OtherValue? || (value.TextValue? && parseTime(value.text).None? && parseNumber(value.text).None?)
            ==> t == parseTime(defaultValue).GetOr(Midnight)
  {
    match value
    case TimeValue(t) => t
    case TextValue(text) =>
      (match parseTime(text)
       case Some(t) => t
       case None =>
         (match parseNumber(text)
          case Some(n) => HourTime(n)
          case None => parseTime(defaultValue).GetOr(Midnight)))
    case NumberValue(n) => HourTime(n)
    case OtherValue => parseTime(defaultValue).GetOr(Midnight)
  }

  /** `t.strftime("%H:%M")`: two-digit hour, a colon, two-digit minute. */
  function FormatHourMinute(t: TimeOfDay): (s: string)
    ensures |s| == 5 && s[2] == ':'
  {
    TwoDigits(t.hour) + ":" + TwoDigits(t.minute)
  }

  /**
   * `_time_to_str(value)`. A time, or a string `parse_time` accepts, becomes
   * its "HH:MM" text; any other string is kept as it is; a number `n` becomes
   * `f"{n:02d}:00"`, without reducing `n` modulo 24; anything else becomes
   * `DEFAULT_WINDOW_START`, which is the integer 21 and not a string.
   */
  function TimeToStr(value: FormValue, parseTime: string -> Option<TimeOfDay>): (r: FormValue)
    ensures r.TextValue? || r == NumberValue(DefaultWindowStart)
    ensures r == NumberValue(DefaultWindowStart) <==> value.OtherValue?
  {
    match value
    case TextValue(text) =>
      (match parseTime(text)
       case Some(t) => TextValue(FormatHourMinute(t))
       case None => TextValue(text))
    case TimeValue(t) => TextValue(FormatHourMinute(t))
    case NumberValue(n) => TextValue(Format02d(n) + ":00")
    case OtherValue => NumberValue(DefaultWindowStart)
  }

  // ---------------------------------------------------------------------
  // Reading "HH:MM" back

  /** Hour and minute of a text of the exact shape "DD:DD". */
  function DecodeHourMinute(s: string): Option<(int, int)> {
    if |s| == 5 && s[2] == ':' && AllDigits(s[..2]) && AllDigits(s[3..])
    then Some((DigitsValue(s[..2]), DigitsValue(s[3..])))
    else None
  }

  /** `parse_time` reads back every "HH:MM" text of a valid time as that time, at second 0. */
  ghost predicate ReadsHourMinute(parseTime: string -> Option<TimeOfDay>) {
    forall t: TimeOfDay :: parseTime(FormatHourMinute(t)) == Some(Time(t.hour, t.minute, 0))
  }

  /** The "HH:MM" text of a time gives back its hour and minute. */
  lemma FormatHourMinuteRoundTrip(t: TimeOfDay)
    ensures DecodeHourMinute(FormatHourMinute(t)) == Some((t.hour, t.minute))
  {
    var s := FormatHourMinute(t);
    assert s[..2] == TwoDigits(t.hour);
    assert s[3..] == TwoDigits(t.minute);
  }

  /** A time is stored as five characters "HH:MM" that read back as its hour and minute. */
  lemma TimeStoredAsHourMinute(t: TimeOfDay, parseTime: string -> Option<TimeOfDay>)
    ensures TimeToStr(TimeValue(t), parseTime).TextValue?
    ensures var s := TimeToStr(TimeValue(t), parseTime).text;
            |s| == 5 && s[2] == ':' && DecodeHourMinute(s) == Some((t.hour, t.minute))
  {
    FormatHourMinuteRoundTrip(t);
  }

  /**
   * A string stays a string: one `parse_time` accepts becomes the "HH:MM" of
   * that time, any other is kept unchanged and never read as a number.
   */
  lemma TextStaysText(text: string, parseTime: string -> Option<TimeOfDay>)
    ensures TimeToStr(TextValue(text), parseTime).TextValue?
    ensures parseTime(text).None? ==> TimeToStr(TextValue(text), parseTime) == TextValue(text)
    ensures parseTime(text).Some? ==>
              DecodeHourMinute(TimeToStr(TextValue(text), parseTime).text)
              == Some((parseTime(text).value.hour, parseTime(text).value.minute))
  {
    if parseTime(text).Some? {
      FormatHourMinuteRoundTrip(parseTime(text).value);
    }
  }

  /**
   * A number is stored as its own two-digit spelling followed by ":00"; for
   * 0..99 that is five characters reading back as (n, 0), and a negative
   * number keeps its minus sign.
   */
  lemma NumberStoredWithoutModulo(n: int, parseTime: string -> Option<TimeOfDay>)
    ensures TimeToStr(NumberValue(n), parseTime).TextValue?
    ensures var s := TimeToStr(NumberValue(n), parseTime).text;
            && |s| >= 5 && s[|s| - 3..] == ":00"
            && (n >= 0 ==> AllDigits(s[..|s| - 3]) && DigitsValue(s[..|s| - 3]) == n)
            && (n >= 10 ==> s[0] != '0')
            && (n < 0 ==> s[0] == '-' && s[1] != '0'
                          && AllDigits(s[1..|s| - 3]) && DigitsValue(s[1..|s| - 3]) == -n)
            && (0 <= n < 100 ==> |s| == 5 && DecodeHourMinute(s) == Some((n, 0)))
  {
    var s := Format02d(n) + ":00";
    assert s[|s| - 3..] == ":00";
    assert s[..|s| - 3] == Format02d(n);
    if n < 0 {
      assert s[1..|s| - 3] == Format02d(n)[1..];
    }
    if 0 <= n < 100 {
      assert s[..2] == TwoDigits(n);
      assert s[3..] == "00";
      assert DigitsValue("00") == 0 by {
        assert "00"[..1] == "0";
        assert "0"[..0] == [];
      }
    }
  }

  /** For an hour 0..23 the two normalisers agree: `_ensure_time(n)` prints as `_time_to_str(n)`. */
  lemma HourFormsAgree(n: int, defaultValue: string,
                       parseTime: string -> Option<TimeOfDay>, parseNumber: NumberParser)
    requires 0 <= n <= 23
    ensures EnsureTime(NumberValue(n), defaultValue, parseTime, parseNumber) == Time(n, 0, 0)
    ensures TimeToStr(NumberValue(n), parseTime)
            == TimeToStr(TimeValue(EnsureTime(NumberValue(n), defaultValue, parseTime, parseNumber)), parseTime)
  {
    assert TwoDigits(0) == "00";
  }

  /** Above 23 they part: 24 is stored as "24:00" but shown as midnight. */
  lemma HourFormsDisagreeAt24(defaultValue: string,
                              parseTime: string -> Option<TimeOfDay>, parseNumber: NumberParser)
    ensures EnsureTime(NumberValue(24), defaultValue, parseTime, parseNumber) == Midnight
    ensures TimeToStr(NumberValue(24), parseTime) == TextValue("24:00")
  {
    assert Format02d(24) == TwoDigits(24);
  }

  /**
   * When `parse_time` reads back what `_time_to_str` writes, storing a time
   * and showing it again gives the same hour and minute (seconds are dropped).
   */
  lemma StoredTimeShowsAgain(t: TimeOfDay, defaultValue: string,
                             parseTime: string -> Option<TimeOfDay>, parseNumber: NumberParser)
    requires ReadsHourMinute(parseTime)
    ensures EnsureTime(TimeToStr(TimeValue(t), parseTime), defaultValue, parseTime, parseNumber)
            == Time(t.hour, t.minute, 0)
  {
    assert parseTime(FormatHourMinute(t)) == Some(Time(t.hour, t.minute, 0));
  }

  /**
   * Under the same reading of `parse_time`, normalising what was already
   * normalised changes nothing, for times, accepted strings and hours 0..23.
   */
  lemma TimeToStrIdempotent(value: FormValue, parseTime: string -> Option<TimeOfDay>)
    requires ReadsHourMinute(parseTime)
    requires value.TimeValue? || (value.TextValue? && parseTime(value.text).Some?)
             || (value.NumberValue? && 0 <= value.n < 24)
    ensures TimeToStr(TimeToStr(value, parseTime), parseTime) == TimeToStr(value, parseTime)
  {
    match value
    case TimeValue(t) =>
      assert parseTime(FormatHourMinute(t)) == Some(Time(t.hour, t.minute, 0));
    case TextValue(text) =>
      var t := parseTime(text).value;
      assert parseTime(FormatHourMinute(t)) == Some(Time(t.hour, t.minute, 0));
    case NumberValue(n) =>
      var t: TimeOfDay := Time(n, 0, 0);
      assert Format02d(n) + ":00" == FormatHourMinute(t);
      assert parseTime(FormatHourMinute(t)) == Some(Time(t.hour, t.minute, 0));
  }

  /** The fallback is not a fixed point: normalising the integer 21 again gives the text "21:00". */
  lemma FallbackIsNotText(parseTime: string -> Option<TimeOfDay>)
    ensures TimeToStr(OtherValue, parseTime) == NumberValue(21)
    ensures TimeToStr(TimeToStr(OtherValue, parseTime), parseTime) == TextValue("21:00")
  {
    assert Format02d(21) == TwoDigits(21);
  }
}
