/** Times of day in a week schedule: "hh:mm" strings and minutes since midnight. */
module ScheduleTime {
  import opened Wrappers
  import opened Numerals
  import opened Text

  /** What a string has to start with to be taken as a time; anything may follow. */
  predicate TimePattern(s: string) {
    || (|s| >= 2 && IsDecimal(s[0]) && s[1] == ':' && MinutePattern(s, 2))
    || (|s| >= 3 && HourPattern(s[0], s[1]) && s[2] == ':' && MinutePattern(s, 3))
  }

  predicate HourPattern(tens: char, units: char) {
    || (tens in "01" && IsDecimal(units))
    || (tens == '2' && '0' <= units <= '4')
  }

  predicate MinutePattern(s: string, i: nat) {
    |s| >= i + 2 && '0' <= s[i] <= '5' && IsDecimal(s[i + 1])
  }

  /** Minutes since midnight; None where a validation error is raised. */
  function TimeToMinutes(s: string): Option<nat> {
    if !TimePattern(s) then None else
    var parts := Split(s, ':');
    if |parts| != 2 then None else
    match (Parse(parts[0], 10), Parse(parts[1], 10))
    case (Some(h), Some(m)) => Some(h * 60 + m)
    case _ => None
  }

  function PrintSigned2(n: int): string {
    if n < 0 then "-" + Print(-n, 10) else Print2(n, 10)
  }

  /** The time string of a number of minutes; None where a validation error is raised. */
  function MinutesToTime(minutes: int): Option<string> {
    var s := PrintSigned2(minutes / 60) + ":" + PrintSigned2(minutes % 60);
    if TimePattern(s) then Some(s) else None
  }

  lemma Print2TwoDigits(n: nat)
    requires n < 100
    ensures Print2(n, 10) == [DigitChar(n / 10), DigitChar(n % 10)]
  {
    if n >= 10 {
      assert Print(n / 10, 10) == [DigitChar(n / 10)];
    }
  }

  lemma Print2LongDigits(n: nat)
    requires n >= 100
    ensures |Print2(n, 10)| >= 3
    ensures forall c <- Print2(n, 10) :: IsDecimal(c)
  {
    assert Print(n, 10) == Print(n / 10, 10) + [DigitChar(n % 10)];
    assert Print(n / 10, 10) == Print(n / 10 / 10, 10) + [DigitChar(n / 10 % 10)];
  }

  lemma NoTime(h: int, m: nat)
    requires h < 0 || h >= 100
    ensures !TimePattern(PrintSigned2(h) + ":" + PrintSigned2(m))
  {
    hide Print;
    var s := PrintSigned2(h) + ":" + PrintSigned2(m);
    if h < 0 {
      assert s[0] == '-';
    } else {
      Print2LongDigits(h);
      assert forall i :: 0 <= i < 3 ==> s[i] == Print2(h, 10)[i];
      assert IsDecimal(s[1]) && IsDecimal(s[2]);
    }
  }

  lemma ShortTime(h: nat, m: nat)
    requires h < 100 && m < 60
    ensures var s := PrintSigned2(h) + ":" + PrintSigned2(m);
      && (TimePattern(s) <==> h <= 24) && (TimePattern(s) ==> TimeToMinutes(s) == Some(60 * h + m))
      && |s| == 5 && s[2] == ':' && IsDecimal(s[0]) && IsDecimal(s[1]) && IsDecimal(s[3]) && IsDecimal(s[4])
  {
    hide Print, Parse, Split;
    var s := PrintSigned2(h) + ":" + PrintSigned2(m);
    Print2TwoDigits(h);
    Print2TwoDigits(m);
    assert s[2] == ':' && s[3..] == Print2(m, 10);
    assert HourPattern(s[0], s[1]) <==> h <= 24;
    SplitTwo(Print2(h, 10), ':', Print2(m, 10));
    ParsePrint2(h, 10);
    ParsePrint2(m, 10);
  }

  /** Minutes have a time string exactly up to 24:59: two digits, a colon, two digits. Reading it gives the minutes
      back. */
  lemma TimeRoundTrip(minutes: int)
    ensures MinutesToTime(minutes).Some? <==> 0 <= minutes <= 1499
    ensures MinutesToTime(minutes).Some? ==>
      var s := MinutesToTime(minutes).value;
      |s| == 5 && s[2] == ':' && IsDecimal(s[0]) && IsDecimal(s[1]) && IsDecimal(s[3]) && IsDecimal(s[4])
    ensures MinutesToTime(minutes).Some? ==> TimeToMinutes(MinutesToTime(minutes).value) == Some(minutes)
  {
    hide TimePattern, TimeToMinutes, PrintSigned2;
    var h, m := minutes / 60, minutes % 60;
    if h < 0 || h >= 100 {
      NoTime(h, m);
    } else {
      ShortTime(h, m);
    }
  }

  // ----- what every accepted string stands for

  /** A number of hours up to 24, written with or without a leading zero. */
  predicate IsHour(hour: string, h: nat) { h <= 24 && (hour == Print(h, 10) || hour == Print2(h, 10)) }

  /** Digits for the minutes: two or more, the first up to 5. */
  predicate IsMinute(minute: string) {
    |minute| >= 2 && '0' <= minute[0] <= '5' && forall c <- minute :: IsDecimal(c)
  }

  lemma HourTexts(h: nat)
    requires h <= 24
    ensures h < 10 ==> Print(h, 10) == [DigitChar(h)] && Print2(h, 10) == ['0', DigitChar(h)]
    ensures h >= 10 ==> Print(h, 10) == Print2(h, 10) == [DigitChar(h / 10), DigitChar(h % 10)]
  {
    if h >= 10 {
      assert Print(h / 10, 10) == [DigitChar(h / 10)];
    }
  }

  /** Hours, a colon and minutes are read as they are written, also with one digit for the hours. */
  lemma TimeStandsFor(hour: string, h: nat, minute: string)
    requires IsHour(hour, h) && IsMinute(minute)
    ensures Parse(minute, 10).Some?
    ensures TimeToMinutes(hour + ":" + minute) == Some(60 * h + Parse(minute, 10).value)
  {
    hide Parse, Split, Print, Print2;
    var s := hour + ":" + minute;
    HourTexts(h);
    ParsePrint(h, 10);
    ParsePrint2(h, 10);
    DigitsOnly(minute);
    assert s == hour + [':'] + minute;
    assert ':' !in hour;
    SplitTwo(hour, ':', minute);
    assert TimePattern(s) by {
      assert s[|hour|] == ':' && s[|hour| + 1] == minute[0] && s[|hour| + 2] == minute[1];
    }
  }

  lemma DigitsOnly(minute: string)
    requires IsMinute(minute)
    ensures Parse(minute, 10).Some? && ':' !in minute
  {
    ParseIff(minute, 10);
  }

  /** Nothing else is read as a time. */
  lemma TimeRead(s: string) returns (hour: string, h: nat, minute: string)
    requires TimeToMinutes(s).Some?
    ensures s == hour + ":" + minute && IsHour(hour, h) && IsMinute(minute)
  {
    hide Parse, Split, Print, Print2;
    var parts := Split(s, ':');
    hour, minute := parts[0], parts[1];
    JoinSplit(s, ':');
    JoinTwo(hour, ':', minute);
    assert parts == [hour, minute];
    assert s == hour + ":" + minute;
    ParseIff(hour, 10);
    ParseIff(minute, 10);
    HourRead(s, hour, minute);
    h := if |hour| == 1 then DigitValue(hour[0]) else 10 * DigitValue(hour[0]) + DigitValue(hour[1]);
    HourTexts(h);
  }

  lemma HourRead(s: string, hour: string, minute: string)
    requires TimePattern(s) && s == hour + ":" + minute
    requires hour != "" && (forall c <- hour :: IsDigit(c, 10)) && (forall c <- minute :: IsDigit(c, 10))
    ensures |hour| == 1 || (|hour| == 2 && HourPattern(hour[0], hour[1]))
    ensures IsMinute(minute)
  {
    assert forall i :: 0 <= i < |hour| ==> hour[i] in hour && s[i] == hour[i];
    assert forall i :: 0 <= i < |minute| ==> minute[i] in minute && s[|hour| + 1 + i] == minute[i];
    assert |hour| == if s[1] == ':' then 1 else 2;
  }

  /** "5:00" is five in the morning. */
  lemma OneDigitHour(h: nat, m: nat)
    requires h < 10 && m < 60
    ensures TimeToMinutes([DigitChar(h)] + ":" + Print2(m, 10)) == Some(60 * h + m)
  {
    hide TimeToMinutes, Parse;
    HourTexts(h);
    Print2TwoDigits(m);
    ParsePrint2(m, 10);
    TimeStandsFor([DigitChar(h)], h, Print2(m, 10));
  }
}
