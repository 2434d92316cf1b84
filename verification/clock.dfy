/** The clock widget's formatter: a time of day as `HH:MM:SS`, and the reading back. */
module Clock {
  import opened Wrappers
  import opened Decimal

  /** What `getHours`, `getMinutes` and `getSeconds` report. */
  datatype TimeOfDay = TimeOfDay(hours: nat, minutes: nat, seconds: nat)

  predicate Valid(t: TimeOfDay) {
    t.hours < 24 && t.minutes < 60 && t.seconds < 60
  }

  /** `formatTime`: before the first tick there is no time and the clock shows midnight;
      otherwise each component is written in decimal, padded to two digits. */
  function FormatTime(time: Option<TimeOfDay>): (s: string)
    ensures time.None? ==> s == "00:00:00"
    ensures time.Some? && Valid(time.value) ==>
      && |s| == 8 && s[2] == ':' && s[5] == ':'
      && s[0..2] == [DigitChar(time.value.hours / 10), DigitChar(time.value.hours % 10)]
      && s[3..5] == [DigitChar(time.value.minutes / 10), DigitChar(time.value.minutes % 10)]
      && s[6..8] == [DigitChar(time.value.seconds / 10), DigitChar(time.value.seconds % 10)]
  {
    match time
    case None => "00:00:00"
    case Some(t) =>
      if Valid(t) then
        ValidLayout(t);
        Join(t)
      else
        Join(t)
  }

  /** The three padded components joined by colons. */
  function Join(t: TimeOfDay): string {
    TwoDigits(t.hours) + ":" + TwoDigits(t.minutes) + ":" + TwoDigits(t.seconds)
  }

  /** For a valid time each field of the joined text is the tens and units digit of its component. */
  lemma ValidLayout(t: TimeOfDay)
    requires Valid(t)
    ensures var s := Join(t);
      && |s| == 8 && s[2] == ':' && s[5] == ':'
      && s[0..2] == [DigitChar(t.hours / 10), DigitChar(t.hours % 10)]
      && s[3..5] == [DigitChar(t.minutes / 10), DigitChar(t.minutes % 10)]
      && s[6..8] == [DigitChar(t.seconds / 10), DigitChar(t.seconds % 10)]
  {
    TwoDigitsOf(t.hours);
    TwoDigitsOf(t.minutes);
    TwoDigitsOf(t.seconds);
    JoinFields(TwoDigits(t.hours), TwoDigits(t.minutes), TwoDigits(t.seconds));
  }

  /** Where the three two-character fields land in the joined text. */
  lemma JoinFields(a: string, b: string, c: string)
    requires |a| == 2 && |b| == 2 && |c| == 2
    ensures var s := a + ":" + b + ":" + c;
      |s| == 8 && s[2] == ':' && s[5] == ':' && s[0..2] == a && s[3..5] == b && s[6..8] == c
  {
  }

  /** Reads `HH:MM:SS` back; anything else is `None`. */
  function ParseTime(s: string): (r: Option<TimeOfDay>)
    ensures r.Some? ==> |s| == 8 && s[2] == ':' && s[5] == ':'
  {
    if |s| == 8 && s[2] == ':' && s[5] == ':' && AllDigits(s[0..2]) && AllDigits(s[3..5]) && AllDigits(s[6..8])
    then Some(TimeOfDay(ParseDecimal(s[0..2]), ParseDecimal(s[3..5]), ParseDecimal(s[6..8])))
    else None
  }

  /** Formatting loses nothing: the shown text reads back as the time it shows. */
  lemma ParseFormat(t: TimeOfDay)
    requires Valid(t)
    ensures ParseTime(FormatTime(Some(t))) == Some(t)
  {
    var s := FormatTime(Some(t));
    ParseTwoDigits(t.hours);
    ParseTwoDigits(t.minutes);
    ParseTwoDigits(t.seconds);
    TwoDigitsOf(t.hours);
    TwoDigitsOf(t.minutes);
    TwoDigitsOf(t.seconds);
    JoinFields(TwoDigits(t.hours), TwoDigits(t.minutes), TwoDigits(t.seconds));
  }

  /** So two valid times show the same text only when they are equal. */
  lemma FormatInjective(t: TimeOfDay, u: TimeOfDay)
    requires Valid(t) && Valid(u)
    ensures FormatTime(Some(t)) == FormatTime(Some(u)) ==> t == u
  {
    ParseFormat(t);
    ParseFormat(u);
  }

  /** The one ambiguity of the display: "no time yet" shows as midnight. */
  lemma NoTimeShowsMidnight()
    ensures FormatTime(None) == FormatTime(Some(TimeOfDay(0, 0, 0)))
  {
  }
}
