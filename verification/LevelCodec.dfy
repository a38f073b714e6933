/** Levels of blinds inside combined parameters: encoding for the device, decoding for the command cache. */
module LevelCodec {
  import opened Wrappers
  import opened Numerals
  import opened Text

  /** A value sent to or received from the backend. */
  datatype Val = Null | Num(x: real) | Txt(s: string)

  /** `int(x)`: truncation towards zero. */
  function Truncate(x: real): int {
    if x >= 0.0 then x.Floor else -((-x).Floor)
  }

  function ParseInt(s: string): Option<int> {
    if s != "" && s[0] == '-' then
      match Parse(s[1..], 10) case None => None case Some(n) => var m: int := n; Some(-m)
    else
      match Parse(s, 10) case None => None case Some(n) => Some(n)
  }

  // ----- one level

  /** `format(n, "#04x")` */
  function PrintHex(n: int): string {
    if n < 0 then "-0x" + Print(-n, 16) else "0x" + Print2(n, 16)
  }

  /** `convert_hm_level_to_cpv` */
  function HmLevelToCpv(level: real): string { PrintHex(Truncate(level * 100.0 * 2.0)) }

  /** `_convert_cpv_to_hm_level`: text that does not start like a hex number is kept as it is. None is an exception. */
  function CpvToHmLevel(cpv: string): Option<Val> {
    if !StartsWith(cpv, "0x") then Some(Txt(cpv)) else
    match Parse(cpv[2..], 16)
    case None => None
    case Some(n) => Some(Num(n as real / 100.0 / 2.0))
  }

  /** `_convert_cpv_to_hmip_level` */
  function CpvToHmipLevel(cpv: string): Option<Val> {
    match ParseInt(cpv)
    case None => None
    case Some(n) => Some(Num(n as real / 100.0))
  }

  // ----- both levels

  const LEVEL := "LEVEL"
  const LEVEL_2 := "LEVEL_2"
  const LEVEL_SLATS := "LEVEL_SLATS"
  const COMBINED_PARAMETER := "COMBINED_PARAMETER"
  const LEVEL_COMBINED := "LEVEL_COMBINED"

  function Listed(level: Option<string>): seq<string> {
    match level case None => [] case Some(s) => [s]
  }

  function JoinOrNone(levels: seq<string>): Option<string> {
    if levels == [] then None else Some(Join(levels, ','))
  }

  /** `CustomDpBlind._get_combined_value` */
  function RfCombined(level: Option<real>, tilt: Option<real>): Option<string> {
    JoinOrNone(Listed(match level case None => None case Some(x) => Some(HmLevelToCpv(x))) +
               Listed(match tilt case None => None case Some(x) => Some(HmLevelToCpv(x))))
  }

  /** `CustomDpIpBlind._get_combined_value` */
  function IpCombined(level: Option<real>, tilt: Option<real>): Option<string> {
    JoinOrNone(Listed(match tilt case None => None case Some(x) => Some("L2=" + PrintInt(Truncate(x * 100.0)))) +
               Listed(match level case None => None case Some(x) => Some("L=" + PrintInt(Truncate(x * 100.0)))))
  }

  /** What one "name=value" part contributes; None is an exception. */
  function ConvertPart(part: string, paramset: map<string, Val>): Option<map<string, Val>> {
    var sides := Split(part, '=');
    if |sides| != 2 then None
    else if sides[0] != "L" && sides[0] != "L2" then Some(paramset)
    else match CpvToHmipLevel(sides[1])
      case None => None
      case Some(v) => Some(paramset[(if sides[0] == "L" then LEVEL else LEVEL_2) := v])
  }

  function ConvertParts(parts: seq<string>): Option<map<string, Val>> {
    if parts == [] then Some(map[]) else
    match ConvertParts(parts[..|parts| - 1])
    case None => None
    case Some(paramset) => ConvertPart(parts[|parts| - 1], paramset)
  }

  /** `_convert_combined_parameter_to_paramset` */
  method ConvertCombinedParameter(cpv: string) returns (paramset: Option<map<string, Val>>)
    ensures paramset == ConvertParts(Split(cpv, ','))
  {
    var parts := Split(cpv, ',');
    var filled: map<string, Val> := map[];
    for i := 0 to |parts|
      invariant ConvertParts(parts[..i]) == Some(filled)
      invariant ConvertParts(parts[..i]).None? ==> ConvertParts(parts).None?
    {
      assert parts[..i + 1][..i] == parts[..i];
      var next := ConvertPart(parts[i], filled);
      if next.None? {
        FailureStays(parts, i + 1);
        return None;
      }
      filled := next.value;
    }
    assert parts[..|parts|] == parts;
    return Some(filled);
  }

  lemma {:induction false} FailureStays(parts: seq<string>, i: nat)
    requires i <= |parts| && ConvertParts(parts[..i]).None?
    ensures ConvertParts(parts).None?
  {
    if i < |parts| {
      assert parts[..|parts| - 1][..i] == parts[..i];
      FailureStays(parts[..|parts| - 1], i);
    } else {
      assert parts[..i] == parts;
    }
  }

  /** The parameter a part names; None for a part that is passed over. */
  function PartName(part: string): Option<string> {
    var name := Split(part, '=')[0];
    if name == "L" then Some(LEVEL) else if name == "L2" then Some(LEVEL_2) else None
  }

  /** A part has one "=", and a whole number behind it if it names a level. */
  predicate Readable(part: string) {
    |Split(part, '=')| == 2 && (PartName(part).Some? ==> ParseInt(Split(part, '=')[1]).Some?)
  }

  function PartValue(part: string): Val
    requires Readable(part) && PartName(part).Some?
  {
    Num(ParseInt(Split(part, '=')[1]).value as real / 100.0)
  }

  /** Part `i` is the last one to name the parameter. */
  ghost predicate LastNaming(parts: seq<string>, i: int, name: string) {
    && 0 <= i < |parts| && PartName(parts[i]) == Some(name)
    && forall j :: i < j < |parts| ==> PartName(parts[j]) != Some(name)
  }

  /** A text converts exactly if every part is readable; then it sets exactly the parameters named, each to the
      hundredths of the last part that names it. */
  lemma {:induction false} ConvertedParts(parts: seq<string>)
    ensures ConvertParts(parts).Some? <==> forall i :: 0 <= i < |parts| ==> Readable(parts[i])
    ensures ConvertParts(parts).Some? ==>
      forall i, name :: LastNaming(parts, i, name) ==>
        name in ConvertParts(parts).value && ConvertParts(parts).value[name] == PartValue(parts[i])
    ensures ConvertParts(parts).Some? ==>
      forall name <- ConvertParts(parts).value :: exists i :: LastNaming(parts, i, name)
  {
    hide Split, ParseInt, PartName, PartValue, Readable, ConvertPart;
    if parts != [] {
      var n := |parts| - 1;
      var front, last := parts[..n], parts[n];
      ConvertedParts(front);
      assert (forall i :: 0 <= i < |parts| ==> Readable(parts[i])) <==>
        (forall i :: 0 <= i < |front| ==> Readable(front[i])) && Readable(last);
      if ConvertParts(front).Some? {
        OnePart(last, ConvertParts(front).value);
      }
      if ConvertParts(parts).Some? {
        var paramset := ConvertParts(parts).value;
        forall i, name | LastNaming(parts, i, name) ensures name in paramset && paramset[name] == PartValue(parts[i]) {
          if i < n {
            assert LastNaming(front, i, name);
          }
        }
        forall name <- paramset ensures exists i :: LastNaming(parts, i, name) {
          if PartName(last) == Some(name) {
            assert LastNaming(parts, n, name);
          } else {
            var i :| LastNaming(front, i, name);
            assert LastNaming(parts, i, name);
          }
        }
      }
    }
  }

  lemma OnePart(part: string, paramset: map<string, Val>)
    ensures ConvertPart(part, paramset).Some? <==> Readable(part)
    ensures Readable(part) ==>
      ConvertPart(part, paramset).value ==
        (match PartName(part) case None => paramset case Some(name) => paramset[name := PartValue(part)])
  {
    hide Split, ParseInt;
  }

  /** `_convert_level_combined_to_paramset` */
  function ConvertLevelCombined(lcv: string): Option<map<string, Val>> {
    if ',' !in lcv then Some(map[]) else
    var parts := Split(lcv, ',');
    if |parts| != 2 then None else
    match (CpvToHmLevel(parts[0]), CpvToHmLevel(parts[1]))
    case (Some(level), Some(slats)) => Some(map[LEVEL := level, LEVEL_SLATS := slats])
    case _ => None
  }

  /** `convert_combined_parameter_to_paramset`: whatever goes wrong, the answer is an empty paramset. */
  function ConvertCombined(parameter: string, cpv: Val): map<string, Val> {
    if !cpv.Txt? then map[] else
    match (if parameter == COMBINED_PARAMETER then ConvertParts(Split(cpv.s, ','))
           else if parameter == LEVEL_COMBINED then ConvertLevelCombined(cpv.s) else None)
    case None => map[]
    case Some(paramset) => paramset
  }

  // ----- the grid

  /** A level on a grid of `steps` steps, rounded down. */
  function Grid(level: real, steps: real): real
    requires steps > 0.0
  {
    (level * steps).Floor as real / steps
  }

  lemma GridFloor(u: int, steps: real)
    requires steps == 100.0 || steps == 200.0
    ensures (u as real / steps * steps).Floor == u
  {
    assert u as real / steps * steps == u as real;
  }

  /** Rounding to the grid loses less than one step, and rounding again loses nothing. */
  lemma GridLaws(level: real, steps: real)
    requires steps == 100.0 || steps == 200.0
    ensures Grid(level, steps) <= level < Grid(level, steps) + 1.0 / steps
    ensures (Grid(level, steps) * steps).Floor == (level * steps).Floor
    ensures Grid(Grid(level, steps), steps) == Grid(level, steps)
    ensures level >= 0.0 ==> Grid(level, steps) >= 0.0
  {
    GridFloor((level * steps).Floor, steps);
    var r := (level * steps).Floor as real;
    assert r <= level * steps < r + 1.0;
  }

  /** Encoding what was decoded gives the same text again. */
  lemma EncodedOnce(level: real, tilt: real)
    requires level >= 0.0 && tilt >= 0.0
    ensures RfCombined(Some(Grid(level, 200.0)), Some(Grid(tilt, 200.0))) == RfCombined(Some(level), Some(tilt))
    ensures IpCombined(Some(Grid(level, 100.0)), Some(Grid(tilt, 100.0))) == IpCombined(Some(level), Some(tilt))
  {
    SameCode(level);
    SameCode(tilt);
  }

  lemma SameCode(x: real)
    requires x >= 0.0
    ensures Truncate(Grid(x, 200.0) * 100.0 * 2.0) == Truncate(x * 100.0 * 2.0)
    ensures Truncate(Grid(x, 100.0) * 100.0) == Truncate(x * 100.0)
  {
    GridLaws(x, 100.0);
    GridLaws(x, 200.0);
    assert x * 100.0 * 2.0 == x * 200.0 && Grid(x, 200.0) * 100.0 * 2.0 == Grid(x, 200.0) * 200.0;
  }

  /** Hexadecimal printing and parsing undo each other for every natural number. */
  lemma HexRoundTrip(n: nat)
    ensures StartsWith(PrintHex(n), "0x") && Parse(PrintHex(n)[2..], 16) == Some(n)
    ensures CpvToHmLevel(PrintHex(n)) == Some(Num(n as real / 200.0))
  {
    ParsePrint2(n, 16);
    assert PrintHex(n)[2..] == Print2(n, 16);
    assert n as real / 100.0 / 2.0 == n as real / 200.0;
  }

  lemma HexFree(n: nat, sep: char)
    requires sep == ','
    ensures sep !in PrintHex(n)
  {
  }

  /** Decoding an encoded RF pair gives both levels on the grid of half percents. */
  lemma RfCodec(level: real, tilt: real)
    requires level >= 0.0 && tilt >= 0.0
    ensures RfCombined(Some(level), Some(tilt)).Some?
    ensures ConvertCombined(LEVEL_COMBINED, Txt(RfCombined(Some(level), Some(tilt)).value)) ==
      map[LEVEL := Num(Grid(level, 200.0)), LEVEL_SLATS := Num(Grid(tilt, 200.0))]
  {
    hide Print, Parse, Split;
    var l, t := (level * 200.0).Floor, (tilt * 200.0).Floor;
    assert level * 100.0 * 2.0 == level * 200.0 && tilt * 100.0 * 2.0 == tilt * 200.0;
    assert HmLevelToCpv(level) == PrintHex(l) && HmLevelToCpv(tilt) == PrintHex(t);
    var s := RfCombined(Some(level), Some(tilt)).value;
    JoinTwo(PrintHex(l), ',', PrintHex(t));
    assert s == PrintHex(l) + [','] + PrintHex(t);
    HexFree(l, ',');
    HexFree(t, ',');
    SplitTwo(PrintHex(l), ',', PrintHex(t));
    HexRoundTrip(l);
    HexRoundTrip(t);
  }

  lemma IntRoundTrip(n: nat)
    ensures ParseInt(PrintInt(n)) == Some(n) && '=' !in PrintInt(n) && ',' !in PrintInt(n)
  {
    hide Parse;
    ParsePrint(n, 10);
    assert PrintInt(n) == Print(n, 10);
    assert IsDigit(PrintInt(n)[0], 10);
  }

  lemma PartConverts(name: string, n: nat, paramset: map<string, Val>)
    requires name == "L" || name == "L2"
    ensures ConvertPart(name + "=" + PrintInt(n), paramset) ==
      Some(paramset[(if name == "L" then LEVEL else LEVEL_2) := Num(n as real / 100.0)])
  {
    hide Print, Parse, Split, PrintInt, ParseInt;
    IntRoundTrip(n);
    SplitTwo(name, '=', PrintInt(n));
  }

  lemma ConvertTwo(a: string, b: string)
    requires ConvertPart(a, map[]).Some?
    ensures ConvertParts([a, b]) == ConvertPart(b, ConvertPart(a, map[]).value)
  {
    hide ConvertPart;
    assert [a, b][..1] == [a] && [a][..0] == [];
    assert ConvertParts([]) == Some(map[]);
    assert ConvertParts([a]) == ConvertPart(a, map[]);
  }

  /** Decoding an encoded HmIP pair gives both levels on the grid of whole percents. */
  lemma IpCodec(level: real, tilt: real)
    requires level >= 0.0 && tilt >= 0.0
    ensures IpCombined(Some(level), Some(tilt)).Some?
    ensures ConvertCombined(COMBINED_PARAMETER, Txt(IpCombined(Some(level), Some(tilt)).value)) ==
      map[LEVEL := Num(Grid(level, 100.0)), LEVEL_2 := Num(Grid(tilt, 100.0))]
  {
    hide Print, Parse, Split, PrintInt, ParseInt, ConvertPart;
    var l, t := (level * 100.0).Floor, (tilt * 100.0).Floor;
    var a, b := "L2=" + PrintInt(t), "L=" + PrintInt(l);
    var s := IpCombined(Some(level), Some(tilt)).value;
    JoinTwo(a, ',', b);
    assert s == a + [','] + b;
    IntRoundTrip(l);
    IntRoundTrip(t);
    SplitTwo(a, ',', b);
    PartConverts("L2", t, map[]);
    assert "L2" + "=" + PrintInt(t) == a && "L" + "=" + PrintInt(l) == b;
    PartConverts("L", l, map[LEVEL_2 := Num(t as real / 100.0)]);
    ConvertTwo(a, b);
  }

  /** Truncation goes towards zero and loses less than one. */
  lemma TruncateIs(x: real)
    ensures x >= 0.0 ==> Truncate(x) as real <= x < Truncate(x) as real + 1.0
    ensures x <= 0.0 ==> Truncate(x) as real - 1.0 < x <= Truncate(x) as real
    ensures Truncate(-x) == -Truncate(x)
  {
  }

  /** The code of one byte has two digits. */
  lemma HexWidth(n: nat)
    ensures n < 256 ==> |PrintHex(n)| == 4
    ensures n < 16 ==> PrintHex(n)[2] == '0'
  {
    if 16 <= n < 256 {
      assert Print(n, 16) == Print(n / 16, 16) + [DigitChar(n % 16)];
    }
  }

  /** Hexadecimal numbers are read in either letter case. */
  lemma {:induction false} HexCaseless(s: string)
    ensures Parse(Lower(s), 16) == Parse(s, 16)
  {
    assert forall c :: DigitValue(LowerChar(c)) == DigitValue(c);
    if |s| > 1 {
      HexCaseless(s[..|s| - 1]);
      assert Lower(s)[..|s| - 1] == Lower(s[..|s| - 1]);
    }
  }

  /** With one level only, the combined value is that level's part; with none there is no combined value. */
  lemma OneLevel(x: real)
    ensures RfCombined(Some(x), None) == RfCombined(None, Some(x)) == Some(HmLevelToCpv(x))
    ensures IpCombined(Some(x), None) == Some("L=" + PrintInt(Truncate(x * 100.0)))
    ensures IpCombined(None, Some(x)) == Some("L2=" + PrintInt(Truncate(x * 100.0)))
    ensures RfCombined(None, None) == IpCombined(None, None) == None
  {
  }

  /** What else comes of texts: parts of a level pair that are no hexadecimal numbers stay text, a text without a pair
      sets nothing, and so does a text for any other parameter, or no text at all. */
  lemma OtherTexts(parameter: string, a: string, b: string)
    requires ',' !in a && ',' !in b && !StartsWith(a, "0x") && !StartsWith(b, "0x")
    ensures ConvertCombined("LEVEL_COMBINED", Txt(a + "," + b)) == map["LEVEL" := Txt(a), "LEVEL_SLATS" := Txt(b)]
    ensures ConvertCombined("LEVEL_COMBINED", Txt(a)) == map[]
    ensures parameter != "LEVEL_COMBINED" && parameter != "COMBINED_PARAMETER" ==>
      ConvertCombined(parameter, Txt(a)) == map[]
    ensures forall x :: ConvertCombined(parameter, Num(x)) == ConvertCombined(parameter, Null) == map[]
  {
    hide Split;
    SplitTwo(a, ',', b);
    assert a + "," + b == a + [','] + b;
  }
}
