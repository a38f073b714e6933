/** The data of a thermostat week schedule. */
module Schedule {
  import opened Wrappers
  import opened Numerals
  import opened Text
  import opened ScheduleTime

  datatype SlotType = EndTime | StartTime | Temperature

  /** A value in a slot: a time string, a temperature, or a raw number. */
  datatype Value = StrV(s: string) | IntV(n: int) | FloatV(x: real)

  type Slot = map<SlotType, Value>

  type Weekday = map<int, Slot>

  /** The temperatures a thermostat accepts. */
  datatype Range = Range(min: real, max: real)
  {
    predicate Has(t: real) { min <= t <= max }
  }

  datatype Error =
    | KeyMissing
    | BadTime
    | BadTemperature
    | BaseOutOfRange
    | EndMissing
    | TemperatureMissing
    | StartNotBeforeEnd
    | Overlap
    | TemperatureOutOfRange
    | WrongSlotCount
    | SlotMissing
    | TypeMissing
    | TimeOutOfRange
    | NotRising
    | NotAllowed

  const MAX_TIME := "24:00"
  const MIN_TIME := "00:00"
  const LAST_SLOT := 13

  function TimeSlot(end: string, temperature: real): Slot {
    map[EndTime := StrV(end), Temperature := FloatV(temperature)]
  }

  /** `_convert_time_str_to_minutes(str(value))`: a number never prints as a time. */
  function MinutesOf(v: Value): Option<nat> {
    match v
    case StrV(s) => TimeToMinutes(s)
    case IntV(_) | FloatV(_) => None
  }

  function PowerOfTen(n: nat): (r: nat)
    ensures r > 0
  {
    if n == 0 then 1 else 10 * PowerOfTen(n - 1)
  }

  function DigitsOf(s: string): Option<nat> { if s == "" then Some(0) else Parse(s, 10) }

  /** The digits `whole` before and `fraction` after a point. */
  function DecimalOf(whole: string, fraction: string): Option<real> {
    if DigitsOf(whole).None? || DigitsOf(fraction).None? then None
    else Some(DigitsOf(whole).value as real + DigitsOf(fraction).value as real / PowerOfTen(|fraction|) as real)
  }

  /** Digits with at most one point; there are digits on one side of it at least. */
  function UnsignedOf(s: string): Option<real> {
    var parts := Split(s, '.');
    if s in ["", "."] || |parts| > 2 then None
    else DecimalOf(parts[0], if |parts| == 2 then parts[1] else "")
  }

  /** `float(s)` for text in plain decimal notation. */
  function FloatOf(s: string): Option<real> {
    if s != "" && s[0] == '-' then
      match UnsignedOf(s[1..]) case None => None case Some(x) => Some(-x)
    else UnsignedOf(if s != "" && s[0] == '+' then s[1..] else s)
  }

  /** `float(value)` */
  function TemperatureOf(v: Value): Option<real> {
    match v
    case FloatV(x) => Some(x)
    case IntV(n) => Some(n as real)
    case StrV(s) => FloatOf(s)
  }

  /** A temperature written with one decimal counts as that temperature. */
  lemma WrittenTemperature(n: nat, tenths: nat)
    requires tenths < 10
    ensures TemperatureOf(StrV(Print(n, 10) + "." + Print(tenths, 10))) == Some(n as real + tenths as real / 10.0)
  {
    hide Parse, Split, Print, DecimalOf;
    var whole, fraction := Print(n, 10), Print(tenths, 10);
    assert whole + "." + fraction == whole + ['.'] + fraction;
    assert IsDigit((whole + "." + fraction)[0], 10);
    SplitTwo(whole, '.', fraction);
    OneDecimal(n, tenths);
  }

  lemma OneDecimal(n: nat, tenths: nat)
    requires tenths < 10
    ensures DecimalOf(Print(n, 10), Print(tenths, 10)) == Some(n as real + tenths as real / 10.0)
  {
    ParsePrint(n, 10);
    ParsePrint(tenths, 10);
    assert |Print(tenths, 10)| == 1;
    assert PowerOfTen(1) == 10;
  }

  predicate Digits(s: string) { forall c <- s :: IsDigit(c, 10) }

  lemma DigitsRead(s: string)
    ensures DigitsOf(s).Some? <==> Digits(s)
    ensures Digits(s) ==> '.' !in s && '-' !in s && '+' !in s
  {
    ParseIff(s, 10);
  }

  /** Digits with a point anywhere are read, with a sign or without; digits without a point are a whole number. */
  lemma NumberReads(whole: string, fraction: string)
    requires Digits(whole) && Digits(fraction) && !(whole == fraction == "")
    ensures DecimalOf(whole, fraction).Some?
    ensures var t, x := whole + "." + fraction, DecimalOf(whole, fraction).value;
      FloatOf(t) == Some(x) && FloatOf("+" + t) == Some(x) && FloatOf("-" + t) == Some(-x)
    ensures whole != "" ==> FloatOf(whole) == DecimalOf(whole, "")
  {
    hide Parse, Split, DecimalOf;
    var t := whole + "." + fraction;
    assert t == whole + ['.'] + fraction;
    DigitsRead(whole);
    DigitsRead(fraction);
    SplitTwo(whole, '.', fraction);
    SplitFree(whole, '.');
    assert DecimalOf(whole, fraction).Some? by { DecimalSome(whole, fraction); }
    assert t[0] != '-' && t[0] != '+' by {
      assert whole != "" ==> t[0] == whole[0] && whole[0] in whole;
    }
    assert ("+" + t)[1..] == t && ("-" + t)[1..] == t;
    assert |t| == 1 ==> whole == fraction == "";
    assert whole != "" ==> whole[0] in whole;
  }

  lemma DecimalSome(whole: string, fraction: string)
    requires DigitsOf(whole).Some? && DigitsOf(fraction).Some?
    ensures DecimalOf(whole, fraction).Some?
  {
  }

  /** Nothing else is read as a number. */
  lemma NumberRead(s: string) returns (sign: string, whole: string, point: string, fraction: string)
    requires FloatOf(s).Some?
    ensures s == sign + whole + point + fraction && sign in ["", "+", "-"] && point in ["", "."]
    ensures Digits(whole) && Digits(fraction) && whole + fraction != "" && (point == "" ==> fraction == "")
  {
    hide Parse, Split, DecimalOf, DigitsOf;
    sign := if s != "" && s[0] in "+-" then [s[0]] else "";
    var t := s[|sign|..];
    assert s == sign + t;
    assert UnsignedOf(t).Some?;
    JoinSplit(t, '.');
    var parts := Split(t, '.');
    whole, fraction := parts[0], if |parts| == 2 then parts[1] else "";
    point := if |parts| == 2 then "." else "";
    assert DigitsOf(whole).Some? && DigitsOf(fraction).Some? by { DecimalParts(whole, fraction); }
    DigitsRead(whole);
    DigitsRead(fraction);
    if |parts| == 2 {
      JoinTwo(whole, '.', fraction);
      assert parts == [whole] + [fraction];
    } else {
      assert parts == [whole] && Join([whole], '.') == whole;
    }
    assert t == whole + point + fraction;
    assert whole + fraction == "" ==> t == point;
  }

  lemma DecimalParts(whole: string, fraction: string)
    requires DecimalOf(whole, fraction).Some?
    ensures DigitsOf(whole).Some? && DigitsOf(fraction).Some?
  {
  }

  lemma {:induction false} DigitInFront(c: char, s: string)
    requires IsDigit(c, 10) && DigitsOf(s).Some?
    ensures DigitsOf([c] + s) == Some(DigitValue(c) * PowerOfTen(|s|) + DigitsOf(s).value)
  {
    hide DigitsOf, DigitValue, IsDigit, PowerOfTen;
    NoDigits();
    if s == "" {
      DigitBehind("", c);
      assert [c] + s == s + [c];
    } else {
      var front, last := s[..|s| - 1], s[|s| - 1];
      assert DigitsOf(front).Some? && IsDigit(last, 10) by { FrontDigits(s); }
      DigitInFront(c, front);
      DigitBehind(front, last);
      DigitBehind([c] + front, last);
      assert front + [last] == s && [c] + front + [last] == [c] + s;
      TenTimes(|front|);
      Distribute(DigitValue(c), PowerOfTen(|front|), DigitsOf(front).value);
    }
  }

  lemma Distribute(c: nat, p: nat, f: nat)
    ensures 10 * (c * p + f) == c * (10 * p) + 10 * f
  {
  }

  lemma FrontDigits(s: string)
    requires s != "" && DigitsOf(s).Some?
    ensures DigitsOf(s[..|s| - 1]).Some? && IsDigit(s[|s| - 1], 10)
  {
  }

  lemma DigitBehind(s: string, c: char)
    requires IsDigit(c, 10) && DigitsOf(s).Some?
    ensures DigitsOf(s + [c]) == Some(10 * DigitsOf(s).value + DigitValue(c))
  {
    assert (s + [c])[..|s|] == s;
  }

  lemma Shift(c: real, fraction: real, p: real)
    requires p > 0.0
    ensures 10.0 * ((c * p + fraction) / (10.0 * p)) == c + fraction / p
  {
    assert (c * p + fraction) / (10.0 * p) * (10.0 * p) == c * p + fraction;
    assert fraction / p * p == fraction;
    var x, y := 10.0 * ((c * p + fraction) / (10.0 * p)), c + fraction / p;
    assert x * p == y * p;
  }

  /** What the digits behind the point are worth: without them it is the whole number, and moving the point one digit to
      the right multiplies by ten. */
  lemma PointMoves(whole: string, c: char, fraction: string)
    requires DigitsOf(whole).Some? && IsDigit(c, 10) && DigitsOf(fraction).Some?
    ensures DecimalOf(whole, "") == Some(DigitsOf(whole).value as real)
    ensures DecimalOf(whole, [c] + fraction).Some?
    ensures DecimalOf(whole + [c], fraction) == Some(10.0 * DecimalOf(whole, [c] + fraction).value)
  {
    hide DigitsOf, DigitValue, PowerOfTen, IsDigit;
    assert DigitsOf("") == Some(0) && PowerOfTen(0) == 1 by { NoDigits(); }
    DigitInFront(c, fraction);
    DigitBehind(whole, c);
    var p := PowerOfTen(|fraction|);
    assert PowerOfTen(|[c] + fraction|) == 10 * p by { TenTimes(|fraction|); }
    ShiftNatural(DigitValue(c), DigitsOf(fraction).value, p, DigitsOf(whole).value);
  }

  lemma NoDigits()
    ensures DigitsOf("") == Some(0) && PowerOfTen(0) == 1
  {
  }

  lemma TenTimes(n: nat)
    ensures PowerOfTen(n + 1) == 10 * PowerOfTen(n)
  {
  }

  lemma ShiftNatural(c: nat, fraction: nat, p: nat, whole: nat)
    requires p > 0
    ensures (10 * whole + c) as real + fraction as real / p as real ==
      10.0 * (whole as real + (c * p + fraction) as real / (10 * p) as real)
  {
    Shift(c as real, fraction as real, p as real);
    assert (c * p + fraction) as real == c as real * p as real + fraction as real;
    assert (10 * p) as real == 10.0 * p as real;
  }

  /** A whole number counts the same as a number, as a float and as text. */
  lemma WholeTemperature(n: int)
    ensures TemperatureOf(IntV(n)) == Some(n as real) == TemperatureOf(FloatV(n as real)) ==
      TemperatureOf(StrV(PrintInt(n)))
  {
    hide Parse, Split, Print, DecimalOf;
    var digits := Print(if n < 0 then -n else n, 10);
    ParsePrint(if n < 0 then -n else n, 10);
    assert Digits(digits);
    NumberReads(digits, "");
    DigitsRead(digits);
    SplitFree(digits, '.');
    assert DecimalOf(digits, "") == Some((if n < 0 then -n else n) as real) by { WholeDecimal(digits); }
    assert n < 0 ==> PrintInt(n)[1..] == digits;
  }

  lemma WholeDecimal(digits: string)
    requires Parse(digits, 10).Some?
    ensures DecimalOf(digits, "") == Some(Parse(digits, 10).value as real)
  {
    assert PowerOfTen(0) == 1;
  }

  lemma TimeHasColon(s: string)
    ensures TimeToMinutes(s).Some? ==> ':' in s
  {
  }

  /** A number is never read as a time: its text has no colon. */
  lemma NumberIsNoTime(n: int)
    ensures MinutesOf(IntV(n)) == TimeToMinutes(PrintInt(n))
  {
    hide Parse, Split, Print;
    assert ':' !in PrintInt(n);
    TimeHasColon(PrintInt(n));
  }

  /** The minute a slot ends at, when it has a readable end time. */
  function SlotEnd(slot: Slot): Option<nat> {
    if EndTime in slot then MinutesOf(slot[EndTime]) else None
  }

  /** What the thermostat does with a weekday: at minute `t`, the lowest-numbered slot from `no` on that ends after `t`
      decides. */
  function TemperatureAt(weekday: Weekday, no: nat, t: nat): Option<Value>
    decreases LAST_SLOT + 1 - no
  {
    if no > LAST_SLOT || no !in weekday then None
    else match SlotEnd(weekday[no])
      case Some(end) =>
        if end > t then (if Temperature in weekday[no] then Some(weekday[no][Temperature]) else None)
        else TemperatureAt(weekday, no + 1, t)
      case None => None
  }
}
