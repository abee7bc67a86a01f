/** The `Metar` record of `ogimet_model.py`: a raw report line
    `"<YYYYMMDDHHMM> METAR [COR] <ICAO> ..."`, the optional fields `parse`
    extracts from it, the values derived from those fields, and the two
    suitability rules. */
module MetarModel {
  import opened Wrappers
  import opened Text
  import opened MetarScan

  // ------------------------------------------------------------ timestamp

  /** A naive (zone-less) date and time at minute precision. */
  datatype DateTime = DateTime(year: int, month: int, day: int, hour: int, minute: int)

  predicate IsLeapYear(y: int) {
    y % 4 == 0 && (y % 100 != 0 || y % 400 == 0)
  }

  function DaysInMonth(y: int, m: int): int {
    if m == 2 then (if IsLeapYear(y) then 29 else 28)
    else if m == 4 || m == 6 || m == 9 || m == 11 then 30
    else 31
  }

  /** The values Python's `datetime` accepts. */
  predicate ValidDateTime(t: DateTime) {
    && 1 <= t.year <= 9999 && 1 <= t.month <= 12 && 1 <= t.day <= DaysInMonth(t.year, t.month)
    && 0 <= t.hour <= 23 && 0 <= t.minute <= 59
  }

  /** `datetime.strptime(tok, '%Y%m%d%H%M')` on a twelve-digit token. */
  function ParseStamp(tok: string): (r: Option<DateTime>)
    ensures r.Some? ==> ValidDateTime(r.value)
  {
    if |tok| == 12 && IsDigits(tok) then
      var t := DateTime(IntOf(tok[..4]), IntOf(tok[4..6]), IntOf(tok[6..8]), IntOf(tok[8..10]), IntOf(tok[10..]));
      if ValidDateTime(t) then Some(t) else None
    else None
  }

  /** The twelve-digit `%Y%m%d%H%M` form of a date and time. */
  function FormatStamp(t: DateTime): (tok: string)
    requires ValidDateTime(t)
    ensures |tok| == 12 && IsDigits(tok)
  {
    Digits(t.year, 4) + Digits(t.month, 2) + Digits(t.day, 2) + Digits(t.hour, 2) + Digits(t.minute, 2)
  }

  /** Formatting a valid date and time and parsing it back gives it again. */
  lemma StampRoundTrip(t: DateTime)
    requires ValidDateTime(t)
    ensures ParseStamp(FormatStamp(t)) == Some(t)
  {
    var tok := FormatStamp(t);
    assert tok[..4] == Digits(t.year, 4);
    assert tok[4..6] == Digits(t.month, 2);
    assert tok[6..8] == Digits(t.day, 2);
    assert tok[8..10] == Digits(t.hour, 2);
    assert tok[10..] == Digits(t.minute, 2);
    IntOfDigits(t.year, 4);
    IntOfDigits(t.month, 2);
    IntOfDigits(t.day, 2);
    IntOfDigits(t.hour, 2);
    IntOfDigits(t.minute, 2);
  }

  /** A token the parser accepts is the canonical form of what it parses to,
      so accepted tokens and valid dates correspond one to one. */
  lemma StampCanonical(tok: string)
    requires ParseStamp(tok).Some?
    ensures FormatStamp(ParseStamp(tok).value) == tok
  {
    DigitsOfInt(tok[..4]);
    DigitsOfInt(tok[4..6]);
    DigitsOfInt(tok[6..8]);
    DigitsOfInt(tok[8..10]);
    DigitsOfInt(tok[10..]);
    assert tok == tok[..4] + tok[4..6] + tok[6..8] + tok[8..10] + tok[10..];
  }

  // --------------------------------------------------------------- record

  /** The fields of a `Metar` object; `None` is Python's `None`. */
  datatype Observation = Observation(
    raw: string,
    station: Option<string>,
    time: Option<DateTime>,
    windSpeed: Option<nat>,
    windDirection: Option<string>,
    windGust: Option<nat>,
    visibility: Option<nat>,
    clouds: Option<seq<Cloud>>,
    base: Option<nat>,
    ceiling: Option<nat>,
    weather: Option<seq<string>>,
    qnh: Option<seq<string>>,
    temperature: Option<int>,
    dewpoint: Option<int>)
  {
    /** `get_base`: the height in feet of the first layer. A ceiling implies
        a base, and a first layer that is broken or overcast is both. */
    function GetBase(): (r: Option<nat>)
      ensures r.Some? <==> clouds.Some? && |clouds.value| > 0
      ensures r.Some? ==> r.value == IntOf(clouds.value[0].height) * 100
      ensures GetCeiling().Some? ==> r.Some?
      ensures r.Some? && IsCeilingCover(clouds.value[0].cover) ==> r == GetCeiling()
    {
      if clouds.Some? && |clouds.value| > 0 then Some(IntOf(clouds.value[0].height) * 100) else None
    }

    /** `get_ceiling`: the height in feet of the first broken or overcast layer. */
    function GetCeiling(): (r: Option<nat>)
      ensures r.None? <==> clouds.None? || forall k | 0 <= k < |clouds.value| :: !IsCeilingCover(clouds.value[k].cover)
      ensures r.Some? ==> exists k | 0 <= k < |clouds.value| ::
        && IsCeilingCover(clouds.value[k].cover) && r.value == IntOf(clouds.value[k].height) * 100
        && forall j | 0 <= j < k :: !IsCeilingCover(clouds.value[j].cover)
    {
      if clouds.Some? then FirstCeiling(clouds.value) else None
    }

    /** `is_vfr`: visibility and ceiling at least the minima, a missing value
        passing; the same as `is_flyable` given just those two minima. */
    function IsVfr(minVisibility: int := 1500, minCeiling: int := 1500): (r: bool)
      ensures r == IsFlyable(NoLimits.(minVisibility := Some(minVisibility), minCeiling := Some(minCeiling)))
    {
      var visOk := visibility.None? || visibility.value >= minVisibility;
      var ceilingOk := ceiling.None? || ceiling.value >= minCeiling;
      visOk && ceilingOk
    }

    /** Every field a rule of `is_flyable` looks at is unset. */
    predicate Unreported() {
      visibility.None? && ceiling.None? && base.None? && windSpeed.None? && windGust.None?
      && weather.None? && temperature.None?
    }

    /** `is_flyable(**limits)`: the conjunction of the configured checks, an
        unset limit or an unset field passing its check. */
    function IsFlyable(limits: Limits): (r: bool)
      ensures limits == NoLimits ==> r
      ensures Unreported() ==> r
    {
      var visOk := if limits.minVisibility.Some? then visibility.None? || visibility.value >= limits.minVisibility.value else true;
      var ceilingOk := if limits.minCeiling.Some? then ceiling.None? || ceiling.value >= limits.minCeiling.value else true;
      var baseOk := if limits.minBase.Some? then base.None? || base.value >= limits.minBase.value else true;
      var windOk := if limits.maxWindSpeed.Some? then windSpeed.None? || windSpeed.value <= limits.maxWindSpeed.value else true;
      var gustOk := if limits.maxWindGust.Some? then windGust.None? || windGust.value <= limits.maxWindGust.value else true;
      var weatherOk :=
        if limits.badWeather.Some?
        then weather.None? || !(exists k | 0 <= k < |limits.badWeather.value| :: limits.badWeather.value[k] in weather.value)
        else true;
      var minTempOk := if limits.minTemperature.Some? then temperature.None? || temperature.value >= limits.minTemperature.value else true;
      var maxTempOk := if limits.maxTemperature.Some? then temperature.None? || temperature.value <= limits.maxTemperature.value else true;
      visOk && ceilingOk && windOk && gustOk && baseOk && weatherOk && minTempOk && maxTempOk
    }
  }

  /** The keyword arguments of `is_flyable`; an absent keyword is `None`. */
  datatype Limits = Limits(
    minVisibility: Option<int>,
    minCeiling: Option<int>,
    minBase: Option<int>,
    maxWindSpeed: Option<int>,
    maxWindGust: Option<int>,
    badWeather: Option<seq<string>>,
    minTemperature: Option<int>,
    maxTemperature: Option<int>)

  /** `is_flyable()` called without keyword arguments. */
  const NoLimits := Limits(None, None, None, None, None, None, None, None)

  predicate IsCeilingCover(cover: string) {
    cover == "BKN" || cover == "OVC"
  }

  /** The loop of `get_ceiling`: the first broken or overcast layer's height times 100. */
  function FirstCeiling(layers: seq<Cloud>): (r: Option<nat>)
    ensures r.None? <==> forall k | 0 <= k < |layers| :: !IsCeilingCover(layers[k].cover)
    ensures r.Some? ==> exists k | 0 <= k < |layers| ::
      && IsCeilingCover(layers[k].cover) && r.value == IntOf(layers[k].height) * 100
      && forall j | 0 <= j < k :: !IsCeilingCover(layers[j].cover)
  {
    if layers == [] then None
    else if IsCeilingCover(layers[0].cover) then Some(IntOf(layers[0].height) * 100)
    else
      var r := FirstCeiling(layers[1..]);
      assert forall k | 1 <= k < |layers| :: layers[k] == layers[1..][k - 1];
      r
  }

  /** `get_temperature`: an `M` prefix makes the two digits negative. */
  function GetTemperature(td: TempDew): (r: int)
    ensures -100 < r < 100 && (r < 0 ==> td.temp[0] == 'M')
    ensures forall v | -99 <= v <= 99 && EncodeTemperature(v) == td.temp :: r == v
    ensures EncodeTemperature(r) == td.temp || (td.temp == "M00" && r == 0)
  {
    SignedValueRange(td.temp);
    ReadsEncoding(td.temp);
    EncodingOfReading(td.temp);
    SignedValue(td.temp)
  }

  /** `get_dewpoint`: as `get_temperature`, for the second group. */
  function GetDewpoint(td: TempDew): (r: int)
    ensures -100 < r < 100 && (r < 0 ==> td.dew[0] == 'M')
    ensures forall v | -99 <= v <= 99 && EncodeTemperature(v) == td.dew :: r == v
    ensures EncodeTemperature(r) == td.dew || (td.dew == "M00" && r == 0)
  {
    SignedValueRange(td.dew);
    ReadsEncoding(td.dew);
    EncodingOfReading(td.dew);
    SignedValue(td.dew)
  }

  /** A group that is the METAR form of `v` reads as `v`. */
  lemma ReadsEncoding(t: TempGroup)
    ensures forall v | -99 <= v <= 99 && EncodeTemperature(v) == t :: SignedValue(t) == v
  {
    forall v | -99 <= v <= 99 && EncodeTemperature(v) == t ensures SignedValue(t) == v {
      SignedValueOfEncoding(v);
    }
  }

  /** Every group is the METAR form of the value it reads as, except `M00`,
      the form of a temperature just below zero, which reads as 0. */
  lemma EncodingOfReading(t: TempGroup)
    ensures -99 <= SignedValue(t) <= 99
    ensures EncodeTemperature(SignedValue(t)) == t || (t == "M00" && SignedValue(t) == 0)
  {
    if t[0] == 'M' {
      var d := t[1..];
      DigitsOfInt(d);
      assert t == "M" + d;
      if IntOf(d) == 0 {
        assert d == Digits(0, 2) == "00";
      } else {
        assert EncodeTemperature(-(IntOf(d) as int)) == "M" + Digits(IntOf(d), 2);
      }
    } else {
      DigitsOfInt(t);
    }
  }

  /** `-int(t[1:]) if t.startswith('M') else int(t)`. */
  function SignedValue(t: TempGroup): int {
    if t[0] == 'M' then -(IntOf(t[1..]) as int) else IntOf(t)
  }

  /** The METAR form of a temperature between -99 and 99: two digits, after `M` when below zero. */
  function EncodeTemperature(v: int): (g: TempGroup)
    requires -99 <= v <= 99
  {
    if v < 0 then
      var d := Digits(-v, 2);
      assert ("M" + d)[1..] == d;
      "M" + d
    else Digits(v, 2)
  }

  /** Decoding a temperature group inverts encoding it. */
  lemma SignedValueOfEncoding(v: int)
    requires -99 <= v <= 99
    ensures SignedValue(EncodeTemperature(v)) == v
  {
    if v < 0 {
      assert EncodeTemperature(v)[1..] == Digits(-v, 2);
      IntOfDigits(-v, 2);
    } else {
      IntOfDigits(v, 2);
    }
  }

  /** A temperature group read as a number lies strictly between -100 and 100,
      and it is negative only with the `M` prefix. */
  lemma SignedValueRange(t: TempGroup)
    ensures -100 < SignedValue(t) < 100
    ensures SignedValue(t) < 0 ==> t[0] == 'M'
  {
    if t[0] == 'M' {
      DigitsOfInt(t[1..]);
    } else {
      DigitsOfInt(t);
    }
  }

  /** A matched temperature group is never the `//` placeholder, so the
      placeholder test in `parse` never rejects a match. */
  lemma PlaceholderNeverMatches(t: TempGroup)
    ensures t != "//"
  {
    assert IsDigit(t[|t| - 1]);
  }

  /** The list built by the `merged_wx` loop. */
  function MergedWeather(wx: seq<WeatherGroups>): (r: seq<string>)
    ensures |r| == |wx|
  {
    seq(|wx|, k requires 0 <= k < |wx| => wx[k].Merged())
  }

  /** Merging one more match appends its string. */
  lemma MergedWeatherAppend(wx: seq<WeatherGroups>, w: WeatherGroups)
    ensures MergedWeather(wx + [w]) == MergedWeather(wx) + [w.Merged()]
  {
  }

  // -------------------------------------------------------------- parsing

  /** The exceptions `parse` can raise: `IndexError` for too few tokens,
      `ValueError` from `strptime`. */
  datatype ParseError = TooFewTokens | BadTimestamp

  /** The state `parse` leaves behind, and the exception it raised if any. */
  datatype Parsed = Parsed(record: Observation, error: Option<ParseError>)

  /** `__init__` before `parse`: the raw text and nothing else. */
  function Blank(raw: string): Observation {
    Observation(raw, None, None, None, None, None, None, None, None, None, None, None, None, None)
  }

  /** The tokens `parse` reads the station and time from: `raw.split()`
      with a `COR` third token removed. */
  function StationTokens(raw: string): seq<string> {
    var parts := Words(raw);
    if |parts| >= 3 && parts[2] == "COR" then parts[..2] + parts[3..] else parts
  }

  /** `parse` applied to a record. Each field is assigned only when its
      pattern matched, so an unmatched field keeps the value it had; the
      station is assigned before the timestamp is read. */
  function ParseStep(o: Observation): (p: Parsed)
    ensures p.error == Some(TooFewTokens) ==> p.record == o
    ensures p.error == Some(BadTimestamp) ==> p.record.station.Some? && p.record == o.(station := p.record.station)
    ensures p.error.None? ==> p.record.raw == o.raw && p.record.station.Some? && p.record.time.Some?
  {
    var parts := Words(o.raw);
    if |parts| < 3 then Parsed(o, Some(TooFewTokens))
    else
      var parts := if parts[2] == "COR" then parts[..2] + parts[3..] else parts;
      if |parts| < 3 then Parsed(o, Some(TooFewTokens))
      else
        var located := o.(station := Some(parts[2]));
        var time := ParseStamp(parts[0]);
        if time.None? then Parsed(located, Some(BadTimestamp))
        else Parsed(ScanFields(located.(time := time)), None)
  }

  /** Lines 51-81 of `parse`: the pattern searches over the whole raw text. */
  function ScanFields(o: Observation): (r: Observation)
    ensures r.raw == o.raw && r.station == o.station && r.time == o.time
  {
    WithWeather(WithTempDew(WithQnh(WithClouds(WithVisibility(WithWind(o))))))
  }

  /** Lines 51-57: the first wind match sets direction and speed, and the gust when its group took part. */
  function WithWind(o: Observation): (r: Observation)
    ensures r.raw == o.raw && r.station == o.station && r.time == o.time && r.visibility == o.visibility
    ensures r.clouds == o.clouds && r.base == o.base && r.ceiling == o.ceiling && r.weather == o.weather
    ensures r.qnh == o.qnh && r.temperature == o.temperature && r.dewpoint == o.dewpoint
  {
    var wind := FirstWind(o.raw);
    if wind.None? then o
    else
      var g := wind.value.groups;
      o.(windDirection := Some(if g.direction != "VRB" then g.direction else "VRB"),
         windSpeed := Some(IntOf(g.speed)),
         windGust := if g.gust != "" then Some(IntOf(g.gust)) else o.windGust)
  }

  /** Lines 59-61. */
  function WithVisibility(o: Observation): (r: Observation)
    ensures r.raw == o.raw && r.station == o.station && r.time == o.time && r.windSpeed == o.windSpeed
    ensures r.windDirection == o.windDirection && r.windGust == o.windGust && r.clouds == o.clouds && r.base == o.base
    ensures r.ceiling == o.ceiling && r.weather == o.weather && r.qnh == o.qnh && r.temperature == o.temperature
    ensures r.dewpoint == o.dewpoint
  {
    var vis := FirstVisibility(o.raw);
    if vis.Some? then o.(visibility := Some(IntOf(vis.value.groups))) else o
  }

  /** Lines 63-67: the layers when there are any, then base and ceiling from the layers held. */
  function WithClouds(o: Observation): (r: Observation)
    ensures r.raw == o.raw && r.station == o.station && r.time == o.time && r.windSpeed == o.windSpeed
    ensures r.windDirection == o.windDirection && r.windGust == o.windGust && r.visibility == o.visibility && r.weather == o.weather
    ensures r.qnh == o.qnh && r.temperature == o.temperature && r.dewpoint == o.dewpoint
  {
    var layers := AllClouds(o.raw);
    var o1 := if layers != [] then o.(clouds := Some(layers)) else o;
    o1.(base := o1.GetBase(), ceiling := o1.GetCeiling())
  }

  /** Line 69. */
  function WithQnh(o: Observation): (r: Observation)
    ensures r.raw == o.raw && r.station == o.station && r.time == o.time && r.windSpeed == o.windSpeed
    ensures r.windDirection == o.windDirection && r.windGust == o.windGust && r.visibility == o.visibility && r.clouds == o.clouds
    ensures r.base == o.base && r.ceiling == o.ceiling && r.weather == o.weather && r.temperature == o.temperature
    ensures r.dewpoint == o.dewpoint
  {
    o.(qnh := Some(AllQnh(o.raw)))
  }

  /** Lines 71-74: temperature and dewpoint from the first match, together. */
  function WithTempDew(o: Observation): (r: Observation)
    ensures r.raw == o.raw && r.station == o.station && r.time == o.time && r.windSpeed == o.windSpeed
    ensures r.windDirection == o.windDirection && r.windGust == o.windGust && r.visibility == o.visibility && r.clouds == o.clouds
    ensures r.base == o.base && r.ceiling == o.ceiling && r.weather == o.weather && r.qnh == o.qnh
  {
    var td := FirstTempDew(o.raw);
    if td.Some? && td.value.groups.temp != "//" && td.value.groups.dew != "//"
    then o.(temperature := Some(GetTemperature(td.value.groups)), dewpoint := Some(GetDewpoint(td.value.groups)))
    else o
  }

  /** Lines 76-81: every weather match merged into one string, when there is any. */
  function WithWeather(o: Observation): (r: Observation)
    ensures r.raw == o.raw && r.station == o.station && r.time == o.time && r.windSpeed == o.windSpeed
    ensures r.windDirection == o.windDirection && r.windGust == o.windGust && r.visibility == o.visibility && r.clouds == o.clouds
    ensures r.base == o.base && r.ceiling == o.ceiling && r.qnh == o.qnh && r.temperature == o.temperature
    ensures r.dewpoint == o.dewpoint
  {
    var wx := AllWeather(o.raw);
    if wx != [] then o.(weather := Some(MergedWeather(wx))) else o
  }

  /** `Metar(raw)`: the record it builds, or the exception it raises. */
  function Decode(raw: string): (r: Result<Observation, ParseError>)
    ensures r.Success? ==> r.value.raw == raw && r.value.station.Some? && r.value.time.Some?
  {
    var p := ParseStep(Blank(raw));
    if p.error.Some? then Failure(p.error.value) else Success(p.record)
  }

  // --------------------------------------------------------------- object

  class Metar {
    var raw: string
    var station: Option<string>
    var time: Option<DateTime>
    var windSpeed: Option<nat>
    var windDirection: Option<string>
    var windGust: Option<nat>
    var visibility: Option<nat>
    var clouds: Option<seq<Cloud>>
    var base: Option<nat>
    var ceiling: Option<nat>
    var weather: Option<seq<string>>
    var qnh: Option<seq<string>>
    var temperature: Option<int>
    var dewpoint: Option<int>

    /** The object's fields as a value. */
    function Snapshot(): Observation
      reads this
    {
      Observation(raw, station, time, windSpeed, windDirection, windGust, visibility,
                  clouds, base, ceiling, weather, qnh, temperature, dewpoint)
    }

    /** `Metar(raw, parse=False)`. */
    constructor Unparsed(raw: string)
      ensures Snapshot() == Blank(raw)
    {
      this.raw := raw;
      station, time := None, None;
      windSpeed, windDirection, windGust := None, None, None;
      visibility, clouds, base, ceiling := None, None, None, None;
      weather, qnh, temperature, dewpoint := None, None, None, None;
    }

    /** `Metar(raw, parse)`: a new object, parsed when asked; a failure of
        `parse` is the exception the constructor call raises. */
    static method New(raw: string, parse: bool) returns (r: Result<Metar, ParseError>)
      ensures !parse ==> r.Success? && r.value.Snapshot() == Blank(raw)
      ensures parse ==> (r.Success? <==> Decode(raw).Success?)
      ensures parse && r.Success? ==> r.value.Snapshot() == Decode(raw).value
      ensures parse && r.Failure? ==> r.error == Decode(raw).error
      ensures r.Success? ==> fresh(r.value)
    {
      var m := new Metar.Unparsed(raw);
      if parse {
        var error := m.Parse();
        if error.Some? {
          return Failure(error.value);
        }
      }
      return Success(m);
    }

    /** `parse`: fills the fields from `raw`, field by field. */
    method Parse() returns (error: Option<ParseError>)
      modifies this
      ensures Snapshot() == ParseStep(old(Snapshot())).record
      ensures error == ParseStep(old(Snapshot())).error
    {
      var parts := Words(raw);
      if |parts| < 3 {
        return Some(TooFewTokens);
      }
      if parts[2] == "COR" {
        parts := parts[..2] + parts[3..];
      }
      if |parts| < 3 {
        return Some(TooFewTokens);
      }
      station := Some(parts[2]);
      var stamp := ParseStamp(parts[0]);
      if stamp.None? {
        return Some(BadTimestamp);
      }
      time := stamp;
      ghost var start := Snapshot();
      assert start == old(Snapshot()).(station := Some(parts[2])).(time := stamp);
      ReadWind();
      ReadVisibility();
      ReadClouds();
      ReadQnh();
      ReadTemperature();
      ReadWeather();
      assert Snapshot() == ScanFields(start);
      return None;
    }

    /** Lines 51-57 of `parse`. */
    method ReadWind()
      modifies this
      ensures Snapshot() == WithWind(old(Snapshot()))
    {
      var windMatch := FirstWind(raw);
      if windMatch.Some? {
        var g := windMatch.value.groups;
        windDirection := Some(if g.direction != "VRB" then g.direction else "VRB");
        windSpeed := Some(IntOf(g.speed));
        if g.gust != "" {
          windGust := Some(IntOf(g.gust));
        }
      }
    }

    /** Lines 59-61 of `parse`. */
    method ReadVisibility()
      modifies this
      ensures Snapshot() == WithVisibility(old(Snapshot()))
    {
      var visMatch := FirstVisibility(raw);
      if visMatch.Some? {
        visibility := Some(IntOf(visMatch.value.groups));
      }
    }

    /** Lines 63-67 of `parse`: `get_base` and `get_ceiling` read the layers just stored. */
    method ReadClouds()
      modifies this
      ensures Snapshot() == WithClouds(old(Snapshot()))
    {
      var layers := AllClouds(raw);
      if layers != [] {
        clouds := Some(layers);
      }
      base := Snapshot().GetBase();
      ceiling := Snapshot().GetCeiling();
    }

    /** Line 69 of `parse`. */
    method ReadQnh()
      modifies this
      ensures Snapshot() == WithQnh(old(Snapshot()))
    {
      qnh := Some(AllQnh(raw));
    }

    /** Lines 71-74 of `parse`. */
    method ReadTemperature()
      modifies this
      ensures Snapshot() == WithTempDew(old(Snapshot()))
    {
      var tempDew := FirstTempDew(raw);
      if tempDew.Some? && tempDew.value.groups.temp != "//" && tempDew.value.groups.dew != "//" {
        temperature := Some(GetTemperature(tempDew.value.groups));
        dewpoint := Some(GetDewpoint(tempDew.value.groups));
      }
    }

    /** Lines 76-81 of `parse`: the `merged_wx` loop. */
    method ReadWeather()
      modifies this
      ensures Snapshot() == WithWeather(old(Snapshot()))
    {
      ghost var before := Snapshot();
      var wxMatch := AllWeather(raw);
      if wxMatch != [] {
        var mergedWx: seq<string> := [];
        for k := 0 to |wxMatch|
          invariant mergedWx == MergedWeather(wxMatch[..k])
          invariant unchanged(this)
        {
          assert wxMatch[..k + 1] == wxMatch[..k] + [wxMatch[k]];
          MergedWeatherAppend(wxMatch[..k], wxMatch[k]);
          mergedWx := mergedWx + [wxMatch[k].Merged()];
        }
        assert wxMatch[..|wxMatch|] == wxMatch;
        weather := Some(mergedWx);
        assert Snapshot() == before.(weather := Some(MergedWeather(wxMatch)));
      }
    }
  }
}
